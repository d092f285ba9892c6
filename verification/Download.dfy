/** The resumable download of download.cpp as a step protocol: file system, retry loop, server and crashes. The body on
    the server does not change, and a reply with status 206 honours the requested offset (sections 14.2 and 15.3.7 of
    RFC 9110). */
module Download {
  import opened Text

  type Bytes = string

  const MAX_ATTEMPTS := 3

  /** The two files of one download. */
  datatype Disk = Disk(temp: Option<Bytes>, final: Option<Bytes>)

  /** Where the program is. */
  datatype Phase =
    | Idle
    | Attempt(i: nat, ranges: bool)                       // head of the retry loop
    | Requested(i: nat, ranges: bool, existing: nat)      // temp file open for appending, GET sent
    | Receiving(i: nat, ranges: bool, existing: nat, got: nat)
    | Pulled                                              // common_pull_file returned true

  datatype State = State(disk: Disk, phase: Phase)

  /** What the outside world does. */
  datatype Event =
    | Start(headOk: bool, ranges: bool, sameEtag: bool, removable: bool)
    | Prepare(removable: bool, openable: bool)
    | Reply(status: int)
    | Chunk(len: nat, written: nat)
    | Dropped
    | Complete
    | Rename(ok: bool)
    | Crash(kept: nat)

  function Retry(s: State): State
    requires s.phase.Requested? || s.phase.Receiving? || s.phase.Attempt?
  {
    s.(phase := Attempt(s.phase.i + 1, s.phase.ranges))
  }

  /** common_download_file_single_online up to the retry loop. */
  function Started(s: State, e: Event): State
    requires s.phase.Idle? && e.Start?
  {
    if !e.headOk then s
    else if s.disk.final.Some? then
      if e.sameEtag || !e.removable then s
      else State(s.disk.(final := None), Attempt(0, e.ranges))
    else s.(phase := Attempt(0, e.ranges))
  }

  /** One turn of the retry loop up to the request: with range support the temp file is kept, otherwise removed. Opening
      for appending creates the file. */
  function Prepared(s: State, e: Event): State
    requires s.phase.Attempt? && e.Prepare?
  {
    var i, ranges := s.phase.i, s.phase.ranges;
    if i >= MAX_ATTEMPTS then s.(phase := Idle)
    else if s.disk.temp.Some? && !ranges && !e.removable then s.(phase := Idle)
    else
      var kept := if ranges then s.disk.temp else None;
      var existing := if kept.Some? then |kept.value| else 0;
      if !e.openable then Retry(State(s.disk.(temp := kept), s.phase))
      else State(s.disk.(temp := Some(if kept.Some? then kept.value else [])), Requested(i, ranges, existing))
  }

  /** The response handler of common_pull_file. */
  function Replied(s: State, e: Event): State
    requires s.phase.Requested? && e.Reply?
  {
    var p := s.phase;
    if p.existing > 0 && e.status != 206 then Retry(s)
    else if p.existing == 0 && e.status != 200 then Retry(s)
    else s.(phase := Receiving(p.i, p.ranges, p.existing, 0))
  }

  /** One step; an event that cannot happen in a state is no step. `None` is such an event. */
  function Step(body: Bytes, s: State, e: Event): Option<State> {
    match e
    case Start(_, _, _, _) => if s.phase.Idle? then Some(Started(s, e)) else None
    case Prepare(_, _) => if s.phase.Attempt? then Some(Prepared(s, e)) else None
    case Reply(status) =>
      // a server answers 206 only if there is something at the requested offset
      if s.phase.Requested? && (status == 206 ==> 0 < s.phase.existing < |body|) then Some(Replied(s, e)) else None
    case Chunk(len, written) =>
      // the next bytes of the body behind the offset; a failed write keeps some of them and ends the attempt
      if s.phase.Receiving? && s.disk.temp.Some? && written <= len && s.phase.existing + s.phase.got + len <= |body| then
        var at := s.phase.existing + s.phase.got;
        var t := State(s.disk.(temp := Some(s.disk.temp.value + body[at..at + written])), s.phase.(got := s.phase.got + written));
        Some(if written < len then Retry(t) else t)
      else None
    case Dropped => if s.phase.Requested? || s.phase.Receiving? then Some(Retry(s)) else None
    case Complete =>
      // the client reports success only when the whole reply has come
      if s.phase.Receiving? && s.phase.existing + s.phase.got == |body| then Some(s.(phase := Pulled)) else None
    case Rename(ok) =>
      if s.phase.Pulled? && s.disk.temp.Some? then
        Some(State(if ok then Disk(None, s.disk.temp) else s.disk, Idle))
      else None
    case Crash(kept) =>
      // unwritten buffers are lost
      if s.disk.temp.Some? && kept <= |s.disk.temp.value| then
        Some(State(s.disk.(temp := Some(s.disk.temp.value[..kept])), Idle))
      else if s.disk.temp.None? then Some(s.(phase := Idle))
      else None
  }

  /** A run from `s`; `None` if an event of it cannot happen. */
  function Run(body: Bytes, s: State, es: seq<Event>): Option<State> {
    if es == [] then Some(s)
    else
      match Run(body, s, es[..|es| - 1])
      case None => None
      case Some(t) => Step(body, t, es[|es| - 1])
  }

  const START := State(Disk(None, None), Idle)

  // ----- Safety

  predicate DiskOk(body: Bytes, d: Disk) {
    (d.temp.Some? ==> d.temp.value <= body) && (d.final.Some? ==> d.final.value == body)
  }

  predicate Inv(body: Bytes, s: State) {
    && DiskOk(body, s.disk)
    && (s.phase.Requested? ==> s.disk.temp.Some? && |s.disk.temp.value| == s.phase.existing)
    && (s.phase.Receiving? ==> s.disk.temp.Some? && |s.disk.temp.value| == s.phase.existing + s.phase.got)
    && (s.phase.Pulled? ==> s.disk.temp == Some(body))
  }

  lemma Extend(t: Bytes, body: Bytes, n: nat)
    requires t <= body && |t| + n <= |body|
    ensures t + body[|t|..|t| + n] == body[..|t| + n] && t + body[|t|..|t| + n] <= body
  {
    assert t == body[..|t|];
  }

  lemma StepKeeps(body: Bytes, s: State, e: Event)
    requires Inv(body, s) && Step(body, s, e).Some?
    ensures Inv(body, Step(body, s, e).value)
  {
    match e
    case Chunk(len, written) => Extend(s.disk.temp.value, body, written);
    case Complete => assert s.disk.temp.value == body[..|body|] == body;
    case _ =>
  }

  /** Main result: whatever happens, in whatever order and however often the program is started again, the temp file is a
      prefix of the body and the final path, when present, holds the whole body. */
  lemma {:induction false} AlwaysSafe(body: Bytes, s: State, es: seq<Event>)
    requires Inv(body, s) && Run(body, s, es).Some?
    ensures Inv(body, Run(body, s, es).value)
    decreases |es|
  {
    hide Step, Inv;
    if es != [] {
      var init := es[..|es| - 1];
      AlwaysSafe(body, s, init);
      StepKeeps(body, Run(body, s, init).value, es[|es| - 1]);
    }
  }

  lemma SafeFromStart(body: Bytes, es: seq<Event>)
    requires Run(body, START, es).Some?
    ensures DiskOk(body, Run(body, START, es).value.disk)
  {
    AlwaysSafe(body, START, es);
  }

  // ----- Progress

  /** Events of a server that supports ranges, and a machine that does not lose written data. */
  predicate Kind(body: Bytes, s: State, e: Event) {
    && (e.Start? ==> e.ranges)
    && (e.Crash? && s.disk.temp.Some? ==> e.kept == |s.disk.temp.value|)
  }

  predicate AllKind(body: Bytes, s: State, es: seq<Event>) {
    forall k :: 0 <= k < |es| ==> Run(body, s, es[..k]).Some? && Kind(body, Run(body, s, es[..k]).value, es[k])
  }

  /** The temp file is complete, but the program is not about to rename it. */
  predicate Stuck(body: Bytes, s: State) {
    && s.disk == Disk(Some(body), None) && body != []
    && (s.phase.Idle? || (s.phase.Attempt? && s.phase.ranges)
        || (s.phase.Requested? && s.phase.ranges && s.phase.existing == |body|))
  }

  lemma StuckStays(body: Bytes, s: State, e: Event)
    requires Stuck(body, s) && Kind(body, s, e) && Step(body, s, e).Some?
    ensures Stuck(body, Step(body, s, e).value)
  {
    assert body[..|body|] == body;
  }

  /** A crash between the last byte and the rename leaves a download that can never be finished: the request for the rest
      is refused with a status other than 206, in every attempt of every later start. */
  lemma {:induction false} CompleteTempIsNeverUsed(body: Bytes, s: State, es: seq<Event>)
    requires Stuck(body, s) && AllKind(body, s, es) && Run(body, s, es).Some?
    ensures Stuck(body, Run(body, s, es).value)
    decreases |es|
  {
    hide Step, Stuck, Kind;
    if es != [] {
      var init, last := es[..|es| - 1], es[|es| - 1];
      assert es[..|es| - 1] == init;
      assert AllKind(body, s, init) by {
        forall k | 0 <= k < |init|
          ensures Run(body, s, init[..k]).Some? && Kind(body, Run(body, s, init[..k]).value, init[k])
        {
          assert init[..k] == es[..k] && init[k] == es[k];
        }
      }
      CompleteTempIsNeverUsed(body, s, init);
      assert Kind(body, Run(body, s, es[..|es| - 1]).value, es[|es| - 1]);
      StuckStays(body, Run(body, s, init).value, last);
    }
  }

  /** A run that a kind world lets happen, and where it leads. */
  predicate Leads(body: Bytes, s: State, es: seq<Event>, t: State) {
    AllKind(body, s, es) && Run(body, s, es) == Some(t)
  }

  lemma LeadsNowhere(body: Bytes, s: State)
    ensures Leads(body, s, [], s)
  {
  }

  lemma LeadsOn(body: Bytes, s: State, es: seq<Event>, t: State, e: Event, u: State)
    requires Leads(body, s, es, t) && Kind(body, t, e) && Step(body, t, e) == Some(u)
    ensures Leads(body, s, es + [e], u)
  {
    hide Step, Kind;
    var fs := es + [e];
    assert fs[..|es|] == es;
    forall k | 0 <= k < |fs|
      ensures Run(body, s, fs[..k]).Some? && Kind(body, Run(body, s, fs[..k]).value, fs[k])
    {
      if k < |es| {
        assert fs[..k] == es[..k];
      }
    }
  }

  ghost predicate CanFinish(body: Bytes, s: State) {
    exists es, t :: Leads(body, s, es, t) && t.disk.final == Some(body)
  }

  /** The request and its reply. */
  lemma Asked(body: Bytes, s: State) returns (es: seq<Event>, t: State)
    requires Inv(body, s) && s.phase.Idle? && s.disk.final.None? && (s.disk.temp == Some(body) ==> body == [])
    ensures Leads(body, s, es, t) && t.phase.Receiving? && t.phase.got == 0 && t.disk.temp.Some? && t.disk.temp.value <= body
    ensures t.phase.existing == |t.disk.temp.value| && t.disk.final == s.disk.final
  {
    hide Leads;
    LeadsNowhere(body, s);
    var s1 := s.(phase := Attempt(0, true));
    LeadsOn(body, s, [], s, Start(true, true, false, true), s1);
    var kept := if s.disk.temp.Some? then s.disk.temp.value else [];
    var s2 := State(s.disk.(temp := Some(kept)), Requested(0, true, |kept|));
    LeadsOn(body, s, [] + [Start(true, true, false, true)], s1, Prepare(true, true), s2);
    assert |kept| == |body| ==> kept == body;
    t := s2.(phase := Receiving(0, true, |kept|, 0));
    var reply := Reply(if |kept| > 0 then 206 else 200);
    es := [] + [Start(true, true, false, true)] + [Prepare(true, true)];
    LeadsOn(body, s, es, s2, reply, t);
    es := es + [reply];
  }

  /** The rest of the body. */
  lemma Received(body: Bytes, s: State, es: seq<Event>, t: State) returns (fs: seq<Event>, u: State)
    requires Leads(body, s, es, t) && t.phase.Receiving? && t.phase.got == 0 && t.disk.temp.Some? && t.disk.temp.value <= body
    requires t.phase.existing == |t.disk.temp.value|
    ensures Leads(body, s, fs, u) && u.phase.Pulled? && u.disk == t.disk.(temp := Some(body))
  {
    hide Leads, AllKind;
    var n := |body| - t.phase.existing;
    Extend(t.disk.temp.value, body, n);
    assert body[..|body|] == body;
    var t1 := State(t.disk.(temp := Some(body)), t.phase.(got := n));
    LeadsOn(body, s, es, t, Chunk(n, n), t1);
    u := t1.(phase := Pulled);
    LeadsOn(body, s, es + [Chunk(n, n)], t1, Complete, u);
    fs := es + [Chunk(n, n)] + [Complete];
  }

  /** The rename. */
  lemma Finished(body: Bytes, s: State, es: seq<Event>, t: State)
    requires Leads(body, s, es, t) && t.phase.Pulled? && t.disk.temp == Some(body)
    ensures CanFinish(body, s)
  {
    hide Leads, AllKind;
    var u := State(Disk(None, Some(body)), Idle);
    LeadsOn(body, s, es, t, Rename(true), u);
  }

  /** The state in which a download is stuck is real: from a fresh start a crash after the last byte leads there. */
  lemma StuckHappens(body: Bytes) returns (es: seq<Event>, t: State)
    requires body != []
    ensures Leads(body, START, es, t) && Stuck(body, t)
    ensures !CanFinish(body, t)
  {
    hide Leads, AllKind, CanFinish;
    var fs, u := Asked(body, START);
    var gs, w := Received(body, START, fs, u);
    assert body[..|body|] == body;
    t := State(Disk(Some(body), None), Idle);
    LeadsOn(body, START, gs, w, Crash(|body|), t);
    es := gs + [Crash(|body|)];
    FinishExact(body, t);
  }

  /** Between two starts without a final file, the download can still be finished if and only if the temp file is not
      already complete. */
  lemma FinishExact(body: Bytes, s: State)
    requires Inv(body, s) && s.phase.Idle? && s.disk.final.None?
    ensures CanFinish(body, s) <==> (s.disk.temp == Some(body) ==> body == [])
  {
    if s.disk.temp == Some(body) ==> body == [] {
      var es, t := Asked(body, s);
      var fs, u := Received(body, s, es, t);
      Finished(body, s, fs, u);
    } else if CanFinish(body, s) {
      var es, t :| Leads(body, s, es, t) && t.disk.final == Some(body);
      CompleteTempIsNeverUsed(body, s, es);
    }
  }

  // ----- The program

  /** What happens to one attempt: whether the files can be removed and opened, the status, the pieces of the reply that
      arrive, and whether the client reports success. */
  datatype Transfer = Transfer(removable: bool, openable: bool, status: int, chunks: seq<Bytes>, success: bool)

  predicate Accepted(existing: nat, status: int) {
    if existing > 0 then status == 206 else status == 200
  }

  /** The pieces are the body from the offset on, all of it if the client reports success. */
  predicate Carries(body: Bytes, at: nat, chunks: seq<Bytes>, success: bool)
    decreases |chunks|
  {
    if chunks == [] then success ==> at == |body|
    else at + |chunks[0]| <= |body| && chunks[0] == body[at..at + |chunks[0]|] && Carries(body, at + |chunks[0]|, chunks[1..], success)
  }

  lemma CarriesNext(body: Bytes, at: nat, chunks: seq<Bytes>, k: nat, success: bool)
    requires k < |chunks| && Carries(body, at, chunks[k..], success)
    ensures at + |chunks[k]| <= |body| && chunks[k] == body[at..at + |chunks[k]|]
    ensures Carries(body, at + |chunks[k]|, chunks[k + 1..], success)
  {
    assert chunks[k..][0] == chunks[k] && chunks[k..][1..] == chunks[k + 1..];
  }

  lemma CarriesNone(body: Bytes, at: nat, chunks: seq<Bytes>, success: bool)
    requires chunks == [] && Carries(body, at, chunks, success)
    ensures success ==> at == |body|
  {
  }

  predicate Honest(body: Bytes, existing: nat, tr: Transfer) {
    && (tr.status == 206 ==> 0 < existing < |body|)
    && (Accepted(existing, tr.status) ==> Carries(body, existing, tr.chunks, tr.success))
    && (tr.success ==> Accepted(existing, tr.status))
  }

  predicate Success(head: Option<int>) {
    head.Some? && 200 <= head.value < 300
  }

  // ----- What a download comes to

  function Concat(chunks: seq<Bytes>): Bytes {
    if chunks == [] then [] else Concat(chunks[..|chunks| - 1]) + chunks[|chunks| - 1]
  }

  /** The bytes that an attempt goes on from. */
  function Resumed(ranges: bool, temp: Option<Bytes>): Bytes {
    if ranges && temp.Some? then temp.value else []
  }

  /** How one attempt ends: the old temp file cannot be removed, or something else goes wrong, or the body is there. */
  datatype Turn = Blocked | Failed | Got

  function TurnOf(tr: Transfer, ranges: bool, temp: Option<Bytes>): Turn {
    if temp.Some? && !ranges && !tr.removable then Blocked
    else if tr.openable && Accepted(|Resumed(ranges, temp)|, tr.status) && tr.success then Got
    else Failed
  }

  /** What an attempt leaves in the temp file, unless the old one cannot be removed. */
  function Left(tr: Transfer, ranges: bool, temp: Option<Bytes>): Option<Bytes> {
    var old_ := Resumed(ranges, temp);
    if !tr.openable then if ranges then temp else None
    else Some(old_ + if Accepted(|old_|, tr.status) then Concat(tr.chunks) else [])
  }

  /** The temp file when attempt `k` begins, the ones before having failed. */
  function TempAt(world: (nat, nat) -> Transfer, ranges: bool, temp: Option<Bytes>, k: nat): Option<Bytes> {
    if k == 0 then temp
    else
      var t := TempAt(world, ranges, temp, k - 1);
      Left(world(k - 1, |Resumed(ranges, t)|), ranges, t)
  }

  /** The old temp file is in the way of attempt `k`. */
  predicate Fatal(world: (nat, nat) -> Transfer, ranges: bool, temp: Option<Bytes>, k: nat) {
    var t := TempAt(world, ranges, temp, k);
    t.Some? && !ranges && !world(k, |Resumed(ranges, t)|).removable
  }

  /** Attempt `k` opens the temp file, and the reply is accepted and comes whole. */
  predicate Serves(world: (nat, nat) -> Transfer, ranges: bool, temp: Option<Bytes>, k: nat) {
    var n := |Resumed(ranges, TempAt(world, ranges, temp, k))|;
    var tr := world(k, n);
    tr.openable && Accepted(n, tr.status) && tr.success
  }

  /** All attempts before `k` fail, and none is stopped by the old temp file. */
  predicate Reaches(world: (nat, nat) -> Transfer, ranges: bool, temp: Option<Bytes>, k: nat) {
    forall j: nat :: j < k ==> !Fatal(world, ranges, temp, j) && !Serves(world, ranges, temp, j)
  }

  /** One of the attempts gets the body. */
  predicate Gets(world: (nat, nat) -> Transfer, ranges: bool, temp: Option<Bytes>) {
    exists k: nat :: k < MAX_ATTEMPTS && Reaches(world, ranges, temp, k)
                     && !Fatal(world, ranges, temp, k) && Serves(world, ranges, temp, k)
  }

  /** A cached file is kept when the server cannot be asked, or says that it is current. */
  predicate UsesCache(d: Disk, head: Option<int>, sameEtag: bool) {
    d.final.Some? && (!Success(head) || sameEtag)
  }

  lemma NoneGets(world: (nat, nat) -> Transfer, ranges: bool, temp: Option<Bytes>, k: nat)
    requires Reaches(world, ranges, temp, k) && (k == MAX_ATTEMPTS || Fatal(world, ranges, temp, k))
    ensures !Gets(world, ranges, temp) && (k < MAX_ATTEMPTS ==> !Reaches(world, ranges, temp, MAX_ATTEMPTS))
  {
    hide Fatal, Serves;
  }

  lemma OneMore(world: (nat, nat) -> Transfer, ranges: bool, temp: Option<Bytes>, k: nat)
    requires Reaches(world, ranges, temp, k) && !Fatal(world, ranges, temp, k) && !Serves(world, ranges, temp, k)
    ensures Reaches(world, ranges, temp, k + 1)
  {
    hide Fatal, Serves;
  }

  lemma NothingTried(world: (nat, nat) -> Transfer, ranges: bool, temp: Option<Bytes>)
    ensures TempAt(world, ranges, temp, 0) == temp && Reaches(world, ranges, temp, 0)
  {
  }

  lemma AttemptIs(world: (nat, nat) -> Transfer, ranges: bool, temp: Option<Bytes>, k: nat)
    ensures var t := TempAt(world, ranges, temp, k);
            var n := |Resumed(ranges, t)|;
            var tr := world(k, n);
            && TempAt(world, ranges, temp, k + 1) == Left(tr, ranges, t)
            && TurnOf(tr, ranges, t) == if Fatal(world, ranges, temp, k) then Blocked
                                        else if Serves(world, ranges, temp, k) then Got else Failed
  {
  }

  lemma GetsAt(world: (nat, nat) -> Transfer, ranges: bool, temp: Option<Bytes>, k: nat)
    requires k < MAX_ATTEMPTS && Reaches(world, ranges, temp, k)
    requires !Fatal(world, ranges, temp, k) && Serves(world, ranges, temp, k)
    ensures Gets(world, ranges, temp) && !Reaches(world, ranges, temp, MAX_ATTEMPTS)
  {
  }

  lemma NothingYet(chunks: seq<Bytes>)
    ensures Concat(chunks[..0]) == []
  {
  }

  lemma ConcatSnoc(chunks: seq<Bytes>, k: nat)
    requires k < |chunks|
    ensures Concat(chunks[..k + 1]) == Concat(chunks[..k]) + chunks[k]
  {
    assert chunks[..k + 1][..k] == chunks[..k];
  }

  /** From a clean start, one good attempt is enough. */
  lemma FirstAttemptGets(world: (nat, nat) -> Transfer, ranges: bool)
    requires var tr := world(0, 0); tr.openable && tr.status == 200 && tr.success
    ensures Gets(world, ranges, None)
  {
    assert Serves(world, ranges, None, 0) && !Fatal(world, ranges, None, 0) && Reaches(world, ranges, None, 0);
  }

  /** An attempt that breaks off is gone on with: from what has come, asking for the rest, where the server supports it, and
      otherwise from the beginning. */
  lemma SecondAttemptGets(world: (nat, nat) -> Transfer, ranges: bool)
    requires var one := world(0, 0); one.openable && one.status == 200 && !one.success
    requires var n := if ranges then |Concat(world(0, 0).chunks)| else 0;
             var two := world(1, n);
             two.removable && two.openable && two.status == (if n > 0 then 206 else 200) && two.success
    ensures Gets(world, ranges, None)
  {
    hide Concat;
    var came := Concat(world(0, 0).chunks);
    assert TempAt(world, ranges, None, 0) == None;
    assert [] + came == came;
    assert TempAt(world, ranges, None, 1) == Some(came);
    assert Reaches(world, ranges, None, 1);
    assert Serves(world, ranges, None, 1) && !Fatal(world, ranges, None, 1);
  }

  class Downloader {
    var disk: Disk
    ghost const body: Bytes
    ghost const start: State
    ghost var phase: Phase
    ghost var trace: seq<Event>

    /** The program has done a run of the protocol. */
    ghost predicate Valid()
      reads this
    {
      Inv(body, start) && Run(body, start, trace) == Some(State(disk, phase))
    }

    constructor (b: Bytes, d: Disk)
      requires DiskOk(b, d)
      ensures Valid() && phase.Idle? && disk == d && body == b && start == State(d, Idle)
    {
      disk, body, start, phase, trace := d, b, State(d, Idle), Idle, [];
    }

    /** Note an event that has been carried out. */
    ghost method Did(e: Event, p: Phase, before: Disk)
      requires Inv(body, start) && Run(body, start, trace) == Some(State(before, phase))
      requires Step(body, State(before, phase), e) == Some(State(disk, p))
      modifies this`phase, this`trace
      ensures Valid() && phase == p
    {
      hide Step;
      phase, trace := p, trace + [e];
      assert trace[..|trace| - 1] == old(trace);
    }

    /** common_pull_file: the reply to the request. */
    method PullFile(existing: nat, tr: Transfer) returns (ok: bool)
      requires Valid() && phase.Requested? && phase.existing == existing && Honest(body, existing, tr)
      requires disk.temp.Some?
      modifies this
      ensures Valid() && disk.final == old(disk).final
      ensures disk.temp == Some(old(disk).temp.value + if Accepted(existing, tr.status) then Concat(tr.chunks) else [])
      ensures ok <==> Accepted(existing, tr.status) && tr.success
      ensures phase == if ok then Pulled else Attempt(old(phase).i + 1, old(phase).ranges)
    {
      hide Run, Inv, Carries, Started, Prepared, Concat;
      ghost var i, ranges := phase.i, phase.ranges;
      ghost var first := disk.temp.value;
      assert tr.chunks[0..] == tr.chunks && first + [] == first;
      if existing > 0 && tr.status != 206 {
        Did(Reply(tr.status), Attempt(i + 1, ranges), disk);
        return false;
      }
      if existing == 0 && tr.status != 200 {
        Did(Reply(tr.status), Attempt(i + 1, ranges), disk);
        return false;
      }
      Did(Reply(tr.status), Receiving(i, ranges, existing, 0), disk);
      var k := 0;
      assert Concat(tr.chunks[..0]) == [] by { NothingYet(tr.chunks); }
      while k < |tr.chunks|
        invariant 0 <= k <= |tr.chunks| && Valid() && disk.final == old(disk).final
        invariant disk.temp == Some(first + Concat(tr.chunks[..k]))
        invariant phase.Receiving? && phase.i == i && phase.ranges == ranges && phase.existing == existing
        invariant Carries(body, existing + phase.got, tr.chunks[k..], tr.success)
      {
        ghost var before, at, n := disk, existing + phase.got, |tr.chunks[k]|;
        CarriesNext(body, at, tr.chunks, k, tr.success);
        ConcatSnoc(tr.chunks, k);
        assert first + Concat(tr.chunks[..k]) + tr.chunks[k] == first + (Concat(tr.chunks[..k]) + tr.chunks[k]);
        disk := disk.(temp := Some(disk.temp.value + tr.chunks[k]));
        Did(Chunk(n, n), phase.(got := phase.got + n), before);
        k := k + 1;
      }
      CarriesNone(body, existing + phase.got, tr.chunks[k..], tr.success);
      assert tr.chunks[..k] == tr.chunks;
      if !tr.success {
        Did(Dropped, Attempt(i + 1, ranges), disk);
        return false;
      }
      Did(Complete, Pulled, disk);
      return true;
    }

    /** One turn of the retry loop. */
    method TryOnce(i: nat, ranges: bool, tr: Transfer) returns (turn: Turn)
      requires Valid() && phase == Attempt(i, ranges) && i < MAX_ATTEMPTS && disk.final.None?
      requires Honest(body, |Resumed(ranges, disk.temp)|, tr)
      modifies this
      ensures Valid() && disk.final.None?
      ensures turn == TurnOf(tr, ranges, old(disk).temp)
      ensures match turn
              case Blocked => disk == old(disk) && phase.Idle?
              case Failed => disk.temp == Left(tr, ranges, old(disk).temp) && phase == Attempt(i + 1, ranges)
              case Got => disk.temp == Some(body) && phase.Pulled?
    {
      hide Run, Concat, Replied, Started, Carries;
      ghost var before := disk;
      var existing := 0;
      if disk.temp.Some? {
        if ranges {
          existing := |disk.temp.value|;
        } else {
          if !tr.removable {
            Did(Prepare(tr.removable, tr.openable), Idle, before);
            return Blocked;
          }
          disk := disk.(temp := None);
        }
      }
      if !tr.openable {
        Did(Prepare(tr.removable, tr.openable), Attempt(i + 1, ranges), before);
        return Failed;
      }
      disk := disk.(temp := Some(if disk.temp.Some? then disk.temp.value else []));
      Did(Prepare(tr.removable, tr.openable), Requested(i, ranges, existing), before);
      var ok := PullFile(existing, tr);
      if !ok { return Failed; }
      AlwaysSafe(body, start, trace);
      return Got;
    }

    /** common_download_file_single_online: 304 for a cached file that is kept, the status of the HEAD request if an attempt
        gets the body and the rename works, and a failure otherwise. `head` is that status, if an answer came; `sameEtag`
        says whether the cached file is current; `world` says what happens to an attempt with a given number of bytes
        present. */
    method Download(head: Option<int>, ranges: bool, sameEtag: bool, removable: bool, renames: bool, world: (nat, nat) -> Transfer)
      returns (code: int)
      requires Valid() && phase.Idle?
      requires forall k: nat, n: nat :: Honest(body, n, world(k, n))
      modifies this
      ensures Valid() && phase.Idle?
      ensures UsesCache(old(disk), head, sameEtag) ==> code == 304 && disk == old(disk) && disk.final == Some(body)
      ensures !Success(head) && old(disk).final.None? ==>
                disk == old(disk) && code == if head.Some? then head.value else -1
      ensures Success(head) && old(disk).final.Some? && !sameEtag && !removable ==> disk == old(disk) && code == -1
      ensures Success(head) && (old(disk).final.Some? ==> !sameEtag && removable) ==>
                var got := Gets(world, ranges, old(disk).temp);
                && code == (if got && renames then head.value else -1)
                && (got ==> disk == if renames then Disk(None, Some(body)) else Disk(Some(body), None))
                && (!got ==> disk.final.None?)
                && (Reaches(world, ranges, old(disk).temp, MAX_ATTEMPTS) ==>
                      disk.temp == TempAt(world, ranges, old(disk).temp, MAX_ATTEMPTS))
    {
      hide Run, Fatal, Serves, Gets, Reaches, TempAt, Concat, Left, TurnOf, Replied;
      ghost var first := Start(Success(head), ranges, sameEtag, removable);
      ghost var before, temp := disk, disk.temp;
      AlwaysSafe(body, start, trace);
      if head.None? || head.value < 200 || head.value >= 300 {
        Did(first, Idle, before);
        return if disk.final.Some? then 304 else if head.Some? then head.value else -1;
      }
      if disk.final.Some? {
        if sameEtag {
          Did(first, Idle, before);
          return 304;
        }
        if !removable {
          Did(first, Idle, before);
          return -1;
        }
        disk := disk.(final := None);
      }
      Did(first, Attempt(0, ranges), before);
      NothingTried(world, ranges, temp);
      for i := 0 to MAX_ATTEMPTS
        invariant Valid() && phase == Attempt(i, ranges)
        invariant disk == Disk(TempAt(world, ranges, temp, i), None) && Reaches(world, ranges, temp, i)
      {
        AttemptIs(world, ranges, temp, i);
        var turn := TryOnce(i, ranges, world(i, if ranges && disk.temp.Some? then |disk.temp.value| else 0));
        match turn
        case Blocked =>
          NoneGets(world, ranges, temp, i);
          return -1;
        case Failed =>
          OneMore(world, ranges, temp, i);
        case Got =>
          GetsAt(world, ranges, temp, i);
          before := disk;
          if !renames {
            Did(Rename(false), Idle, before);
            return -1;
          }
          disk := Disk(None, disk.temp);
          Did(Rename(true), Idle, before);
          return head.value;
      }
      NoneGets(world, ranges, temp, MAX_ATTEMPTS);
      Did(Prepare(true, true), Idle, disk);
      return -1;
    }
  }
}

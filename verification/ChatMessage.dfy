/** Chat messages, the differences sent to a streaming client, and the ids of tool calls
    (chat.h, chat.cpp and the update step of server-task.cpp). */
module ChatMessage {
  import opened Text

  datatype ToolCall = ToolCall(name: string, arguments: string, id: string)

  /** The fields of common_chat_msg that the output parsers fill. */
  datatype Msg = Msg(content: string, reasoning: string, toolCalls: seq<ToolCall>) {
    predicate Empty() {
      content == [] && reasoning == [] && toolCalls == []
    }
  }

  const EMPTY_MSG := Msg([], [], [])
  const EMPTY_CALL := ToolCall([], [], [])

  datatype Diff = Diff(reasoningDelta: string, contentDelta: string, index: Option<nat>, callDelta: ToolCall)

  datatype DiffError = InvalidDiff | FewerToolCalls | ToolCallMismatch

  datatype Result<+T> = Ok(value: T) | Err(error: DiffError) {
    predicate IsFailure() { Err? }
    function PropagateFailure<U>(): Result<U> requires Err? { Err(error) }
    function Extract(): T requires Ok? { value }
  }

  // ----- string_diff and compute_diffs

  function StringDiff(last: string, current: string): Result<string> {
    if last == [] then Ok(current)
    else if !(last <= current) then
      if current <= last then Ok([]) else Err(InvalidDiff)
    else Ok(current[|last|..])
  }

  function ReasoningDiffs(prv: Msg, new_: Msg): Result<seq<Diff>> {
    if prv.reasoning == new_.reasoning then Ok([])
    else
      var d :- StringDiff(prv.reasoning, new_.reasoning);
      Ok([Diff(d, [], None, EMPTY_CALL)])
  }

  function ContentDiffs(prv: Msg, new_: Msg): Result<seq<Diff>> {
    if prv.content == new_.content then Ok([])
    else
      var d :- StringDiff(prv.content, new_.content);
      Ok([Diff([], d, None, EMPTY_CALL)])
  }

  /** Only the last call of the previous message is compared. */
  function LastCallDiffs(prv: Msg, new_: Msg): Result<seq<Diff>>
    requires |prv.toolCalls| <= |new_.toolCalls|
  {
    if prv.toolCalls == [] then Ok([])
    else
      var i := |prv.toolCalls| - 1;
      var pref, newf := prv.toolCalls[i], new_.toolCalls[i];
      if pref.name != newf.name then Err(ToolCallMismatch)
      else
        var args :- StringDiff(pref.arguments, newf.arguments);
        if args == [] && pref.id == newf.id then Ok([])
        else if pref.id != newf.id then Ok([Diff([], [], Some(i), ToolCall(newf.name, args, newf.id))])
        else Ok([Diff([], [], Some(i), ToolCall([], args, []))])
  }

  function NewCallDiffs(new_: Msg, from: nat): seq<Diff>
    decreases |new_.toolCalls| - from
  {
    if from >= |new_.toolCalls| then []
    else [Diff([], [], Some(from), new_.toolCalls[from])] + NewCallDiffs(new_, from + 1)
  }

  function Diffs(prv: Msg, new_: Msg): Result<seq<Diff>> {
    var r :- ReasoningDiffs(prv, new_);
    var c :- ContentDiffs(prv, new_);
    if |new_.toolCalls| < |prv.toolCalls| then Err(FewerToolCalls)
    else
      var l :- LastCallDiffs(prv, new_);
      Ok(r + c + l + NewCallDiffs(new_, |prv.toolCalls|))
  }

  /** compute_diffs; a thrown std::runtime_error is the `Err` result. */
  method ComputeDiffs(prv: Msg, new_: Msg) returns (r: Result<seq<Diff>>)
    ensures r == Diffs(prv, new_)
  {
    hide StringDiff;
    var diffs: seq<Diff> := [];
    if prv.reasoning != new_.reasoning {
      var d :- StringDiff(prv.reasoning, new_.reasoning);
      diffs := diffs + [Diff(d, [], None, EMPTY_CALL)];
    }
    if prv.content != new_.content {
      var d :- StringDiff(prv.content, new_.content);
      diffs := diffs + [Diff([], d, None, EMPTY_CALL)];
    }
    if |new_.toolCalls| < |prv.toolCalls| {
      return Err(FewerToolCalls);
    }
    if prv.toolCalls != [] {
      var idx := |prv.toolCalls| - 1;
      var pref, newf := prv.toolCalls[idx], new_.toolCalls[idx];
      if pref.name != newf.name {
        return Err(ToolCallMismatch);
      }
      var argsDiff :- StringDiff(pref.arguments, newf.arguments);
      if argsDiff != [] || pref.id != newf.id {
        var delta := ToolCall([], argsDiff, []);
        if pref.id != newf.id {
          delta := delta.(id := newf.id, name := newf.name);
        }
        diffs := diffs + [Diff([], [], Some(idx), delta)];
      }
    }
    ghost var head := diffs;
    assert head == ReasoningDiffs(prv, new_).value + ContentDiffs(prv, new_).value + LastCallDiffs(prv, new_).value;
    for idx := |prv.toolCalls| to |new_.toolCalls|
      invariant diffs + NewCallDiffs(new_, idx) == head + NewCallDiffs(new_, |prv.toolCalls|)
    {
      diffs := diffs + [Diff([], [], Some(idx), new_.toolCalls[idx])];
    }
    assert diffs + [] == diffs;
    return Ok(diffs);
  }

  // ----- The client

  /** What a client does with one difference: it appends the deltas; a call that carries an id
      also sets the id and the name. */
  function Apply(m: Msg, d: Diff): Msg {
    Msg(m.content + d.contentDelta, m.reasoning + d.reasoningDelta,
        match d.index
        case None => m.toolCalls
        case Some(i) =>
          if i < |m.toolCalls| then
            var c, e := m.toolCalls[i], d.callDelta;
            m.toolCalls[i := ToolCall(if e.id == [] then c.name else e.name, c.arguments + e.arguments,
                                      if e.id == [] then c.id else e.id)]
          else m.toolCalls + [d.callDelta])
  }

  function Fold(m: Msg, ds: seq<Diff>): Msg
    decreases ds
  {
    if ds == [] then m else Fold(Apply(m, ds[0]), ds[1..])
  }

  lemma FoldConcat(m: Msg, ds: seq<Diff>, es: seq<Diff>)
    ensures Fold(m, ds + es) == Fold(Fold(m, ds), es)
    decreases ds
  {
    if ds == [] {
      assert ds + es == es;
    } else {
      assert (ds + es)[1..] == ds[1..] + es;
      FoldConcat(Apply(m, ds[0]), ds[1..], es);
    }
  }

  lemma NextJoined(head: seq<ToolCall>, calls: seq<ToolCall>, n: nat)
    requires n < |calls|
    ensures head + [calls[n]] + calls[n + 1..] == head + calls[n..]
  {
    assert [calls[n]] + calls[n + 1..] == calls[n..];
  }

  lemma {:induction false} FoldNewCalls(m: Msg, new_: Msg, n: nat)
    requires n == |m.toolCalls| <= |new_.toolCalls|
    ensures Fold(m, NewCallDiffs(new_, n)) == m.(toolCalls := m.toolCalls + new_.toolCalls[n..])
    decreases |new_.toolCalls| - n
  {
    var ds := NewCallDiffs(new_, n);
    if n < |new_.toolCalls| {
      var c := new_.toolCalls[n];
      var m' := Apply(m, ds[0]);
      assert m' == m.(toolCalls := m.toolCalls + [c]);
      assert ds[1..] == NewCallDiffs(new_, n + 1);
      FoldNewCalls(m', new_, n + 1);
      NextJoined(m.toolCalls, new_.toolCalls, n);
    } else {
      assert m.toolCalls + new_.toolCalls[n..] == m.toolCalls;
    }
  }

  /** `new_` continues `prv` in a way a client can follow: texts only grow, all calls but the last one
      seen are final, and the last one keeps its name while its arguments grow. */
  predicate Extends(prv: Msg, new_: Msg) {
    var n := |prv.toolCalls|;
    && prv.content <= new_.content
    && prv.reasoning <= new_.reasoning
    && n <= |new_.toolCalls|
    && (forall i :: 0 <= i < n - 1 ==> prv.toolCalls[i] == new_.toolCalls[i])
    && (n > 0 ==>
          var p, q := prv.toolCalls[n - 1], new_.toolCalls[n - 1];
          p.name == q.name && p.arguments <= q.arguments && (p.id == q.id || q.id != []))
  }

  lemma FoldShort(m: Msg, ds: seq<Diff>)
    requires |ds| <= 1
    ensures Fold(m, ds) == if ds == [] then m else Apply(m, ds[0])
  {
  }

  lemma ExtendsIsOk(a: Msg, b: Msg)
    requires Extends(a, b)
    ensures Diffs(a, b).Ok?
  {
  }

  /** One text continues the other; what was cut off at its end, such as an erased stop word, is not sent again. */
  predicate Comparable(a: string, b: string) {
    a <= b || b <= a
  }

  function Longer(a: string, b: string): string {
    if a <= b then b else a
  }

  lemma StringDiffExact(last: string, current: string)
    ensures StringDiff(last, current).Ok? <==> Comparable(last, current)
    ensures StringDiff(last, current).Err? ==> StringDiff(last, current).error == InvalidDiff
    ensures Comparable(last, current) ==> last + StringDiff(last, current).value == Longer(last, current)
  {
    if last <= current {
      assert last + current[|last|..] == current;
    } else {
      assert last + [] == last;
    }
  }

  /** The last call of the old message and its successor. */
  predicate LastFits(a: Msg, b: Msg)
    requires |a.toolCalls| <= |b.toolCalls|
  {
    a.toolCalls != [] ==>
      var i := |a.toolCalls| - 1;
      a.toolCalls[i].name == b.toolCalls[i].name && Comparable(a.toolCalls[i].arguments, b.toolCalls[i].arguments)
  }

  /** What a client then holds of the last call: the longer arguments, and the new id if there is one. */
  function LastSeen(a: ToolCall, b: ToolCall): ToolCall {
    ToolCall(b.name, Longer(a.arguments, b.arguments), if b.id == [] then a.id else b.id)
  }

  function CallsSeen(a: Msg, b: Msg): seq<ToolCall>
    requires |a.toolCalls| <= |b.toolCalls|
  {
    var n := |a.toolCalls|;
    (if n == 0 then [] else a.toolCalls[..n - 1] + [LastSeen(a.toolCalls[n - 1], b.toolCalls[n - 1])]) + b.toolCalls[n..]
  }

  lemma SeenLastCall(m: Msg, a: Msg, b: Msg)
    requires |a.toolCalls| <= |b.toolCalls| && m.toolCalls == a.toolCalls && LastFits(a, b)
    ensures LastCallDiffs(a, b).Ok?
    ensures var n := |a.toolCalls|;
            Fold(m, LastCallDiffs(a, b).value) == m.(toolCalls :=
              if n == 0 then [] else a.toolCalls[..n - 1] + [LastSeen(a.toolCalls[n - 1], b.toolCalls[n - 1])])
  {
    hide StringDiff, Fold;
    var n := |a.toolCalls|;
    if n > 0 {
      var p, q := a.toolCalls[n - 1], b.toolCalls[n - 1];
      StringDiffExact(p.arguments, q.arguments);
      FoldShort(m, LastCallDiffs(a, b).value);
      assert p.arguments + [] == p.arguments;
      assert m.toolCalls[n - 1 := LastSeen(p, q)] == a.toolCalls[..n - 1] + [LastSeen(p, q)];
      assert a.toolCalls == a.toolCalls[..n - 1] + [p];
    } else {
      FoldShort(m, []);
    }
  }

  lemma SeenTexts(a: Msg, b: Msg)
    requires Comparable(a.reasoning, b.reasoning) && Comparable(a.content, b.content)
    ensures ReasoningDiffs(a, b).Ok? && ContentDiffs(a, b).Ok?
    ensures Fold(a, ReasoningDiffs(a, b).value + ContentDiffs(a, b).value)
         == a.(reasoning := Longer(a.reasoning, b.reasoning), content := Longer(a.content, b.content))
  {
    hide StringDiff, Fold;
    StringDiffExact(a.reasoning, b.reasoning);
    StringDiffExact(a.content, b.content);
    var r, c := ReasoningDiffs(a, b).value, ContentDiffs(a, b).value;
    FoldConcat(a, r, c);
    FoldShort(a, r);
    FoldShort(Fold(a, r), c);
    assert a.reasoning + [] == a.reasoning && a.content + [] == a.content;
  }

  /** Main result on one update: differences exist exactly if the texts can be compared, no call is gone, and the last one is
      still itself; the first of these conditions that fails is the exception. A client that applies them then holds the longer
      texts, the earlier calls as they were, and the new ones. */
  lemma DiffsExact(a: Msg, b: Msg)
    ensures var texts, calls := Comparable(a.reasoning, b.reasoning) && Comparable(a.content, b.content), |a.toolCalls| <= |b.toolCalls|;
            && (Diffs(a, b).Ok? <==> texts && calls && LastFits(a, b))
            && (!texts ==> Diffs(a, b) == Err(InvalidDiff))
            && (texts && !calls ==> Diffs(a, b) == Err(FewerToolCalls))
            && (texts && calls && a.toolCalls != [] && a.toolCalls[|a.toolCalls| - 1].name != b.toolCalls[|a.toolCalls| - 1].name ==>
                  Diffs(a, b) == Err(ToolCallMismatch))
            && (texts && calls && LastFits(a, b) ==>
                  Fold(a, Diffs(a, b).value)
                  == Msg(Longer(a.content, b.content), Longer(a.reasoning, b.reasoning), CallsSeen(a, b)))
  {
    hide StringDiff, Fold, Comparable;
    StringDiffExact(a.reasoning, b.reasoning);
    StringDiffExact(a.content, b.content);
    assert Comparable(a.reasoning, a.reasoning) && Comparable(a.content, a.content) by { Itself(a.reasoning); Itself(a.content); }
    if Comparable(a.reasoning, b.reasoning) && Comparable(a.content, b.content) && |a.toolCalls| <= |b.toolCalls| {
      if a.toolCalls != [] {
        StringDiffExact(a.toolCalls[|a.toolCalls| - 1].arguments, b.toolCalls[|a.toolCalls| - 1].arguments);
      }
      if LastFits(a, b) {
        AllSeen(a, b);
      }
    }
  }

  lemma Itself(s: string)
    ensures Comparable(s, s)
  {
  }

  lemma AllSeen(a: Msg, b: Msg)
    requires Comparable(a.reasoning, b.reasoning) && Comparable(a.content, b.content) && |a.toolCalls| <= |b.toolCalls| && LastFits(a, b)
    ensures Diffs(a, b).Ok?
    ensures Fold(a, Diffs(a, b).value) == Msg(Longer(a.content, b.content), Longer(a.reasoning, b.reasoning), CallsSeen(a, b))
  {
    hide StringDiff, Fold, Comparable, LastCallDiffs, ReasoningDiffs, ContentDiffs;
    SeenTexts(a, b);
    var t := ReasoningDiffs(a, b).value + ContentDiffs(a, b).value;
    SeenLastCall(Fold(a, t), a, b);
    var l, k := LastCallDiffs(a, b).value, NewCallDiffs(b, |a.toolCalls|);
    FoldConcat(a, t + l, k);
    FoldConcat(a, t, l);
    FoldNewCalls(Fold(Fold(a, t), l), b, |a.toolCalls|);
  }

  /** Nothing is sent exactly if the texts are unchanged, no call is new, and the last call has no new name, identifier or
      argument text. */
  lemma NothingIsSent(a: Msg, b: Msg)
    ensures Diffs(a, b) == Ok([]) <==>
            && a.reasoning == b.reasoning && a.content == b.content && |a.toolCalls| == |b.toolCalls|
            && (a.toolCalls != [] ==>
                  var p, q := a.toolCalls[|a.toolCalls| - 1], b.toolCalls[|a.toolCalls| - 1];
                  p.name == q.name && p.id == q.id && q.arguments <= p.arguments)
  {
    hide StringDiff;
    DiffsExact(a, b);
    if |a.toolCalls| <= |b.toolCalls| && a.toolCalls != [] {
      StringDiffExact(a.toolCalls[|a.toolCalls| - 1].arguments, b.toolCalls[|a.toolCalls| - 1].arguments);
    }
  }

  lemma HeadReplaced(head: seq<ToolCall>, calls: seq<ToolCall>)
    requires |head| <= |calls|
    ensures head + calls[|head|..] == calls <==> forall i :: 0 <= i < |head| ==> head[i] == calls[i]
  {
    var out := head + calls[|head|..];
    assert forall i :: 0 <= i < |head| ==> out[i] == head[i];
    assert forall i :: |head| <= i < |out| ==> out[i] == calls[i];
  }

  /** A client that applies the computed differences holds the new message if and only if the new message
      extends the old one. */
  lemma DiffsRebuild(a: Msg, b: Msg)
    ensures Diffs(a, b).Ok? && Fold(a, Diffs(a, b).value) == b <==> Extends(a, b)
  {
    hide Diffs, Fold, Comparable, LastFits, CallsSeen;
    DiffsExact(a, b);
    if Extends(a, b) {
      ExtendsIsOk(a, b);
    }
    if Diffs(a, b).Ok? {
      LongerIs(a.content, b.content);
      LongerIs(a.reasoning, b.reasoning);
      SeenIs(a, b);
    }
  }

  lemma LongerIs(a: string, b: string)
    requires Comparable(a, b)
    ensures Longer(a, b) == b <==> a <= b
  {
  }

  lemma SeenIs(a: Msg, b: Msg)
    requires |a.toolCalls| <= |b.toolCalls| && LastFits(a, b)
    ensures CallsSeen(a, b) == b.toolCalls <==>
              var n := |a.toolCalls|;
              && (forall i :: 0 <= i < n - 1 ==> a.toolCalls[i] == b.toolCalls[i])
              && (n > 0 ==>
                    var p, q := a.toolCalls[n - 1], b.toolCalls[n - 1];
                    p.name == q.name && p.arguments <= q.arguments && (p.id == q.id || q.id != []))
  {
    var n := |a.toolCalls|;
    if n > 0 {
      var p, q := a.toolCalls[n - 1], b.toolCalls[n - 1];
      LongerIs(p.arguments, q.arguments);
      HeadReplaced(a.toolCalls[..n - 1] + [LastSeen(p, q)], b.toolCalls);
    }
  }

  // ----- set_tool_call_ids

  /** The id given to call `i` the first time it is seen: its own, or the next generated one. */
  function FirstId(calls: seq<ToolCall>, supply: nat -> string, i: nat): string
    requires i < |calls|
  {
    if calls[i].id == [] then supply(i) else calls[i].id
  }

  function GrownCache(calls: seq<ToolCall>, cache: seq<string>, supply: nat -> string): seq<string>
    decreases |calls| - |cache|
  {
    if |cache| >= |calls| then cache
    else GrownCache(calls, cache + [FirstId(calls, supply, |cache|)], supply)
  }

  function Stamped(calls: seq<ToolCall>, cache: seq<string>): seq<ToolCall>
    requires |calls| <= |cache|
  {
    seq(|calls|, i requires 0 <= i < |calls| => calls[i].(id := cache[i]))
  }

  lemma GrownCacheGrows(calls: seq<ToolCall>, cache: seq<string>, supply: nat -> string)
    ensures var c := GrownCache(calls, cache, supply);
            && cache <= c
            && |c| == (if |cache| < |calls| then |calls| else |cache|)
            && forall i :: |cache| <= i < |c| ==> c[i] == FirstId(calls, supply, i)
    decreases |calls| - |cache|
  {
    if |cache| < |calls| {
      var d := cache + [FirstId(calls, supply, |cache|)];
      GrownCacheGrows(calls, d, supply);
    }
  }

  /** set_tool_call_ids: grows the cache where the message has more calls, then stamps every call from it. */
  method SetToolCallIds(msg: Msg, cache: seq<string>, supply: nat -> string) returns (msg': Msg, cache': seq<string>)
    ensures cache' == GrownCache(msg.toolCalls, cache, supply)
    ensures |msg.toolCalls| <= |cache'| && msg' == msg.(toolCalls := Stamped(msg.toolCalls, cache'))
  {
    var calls := msg.toolCalls;
    cache' := cache;
    for i := 0 to |calls|
      invariant |calls| == |msg.toolCalls|
      invariant |cache'| >= i
      invariant GrownCache(msg.toolCalls, cache', supply) == GrownCache(msg.toolCalls, cache, supply)
      invariant |cache'| > |cache| ==> |cache'| <= i
      invariant cache <= cache'
      invariant forall k :: 0 <= k < i ==> calls[k] == msg.toolCalls[k].(id := cache'[k])
      invariant forall k :: i <= k < |calls| ==> calls[k] == msg.toolCalls[k]
    {
      if |cache'| <= i {
        var id := calls[i].id;
        if id == [] {
          id := supply(|cache'|);
        }
        cache' := cache' + [id];
      }
      calls := calls[i := calls[i].(id := cache'[i])];
    }
    msg' := msg.(toolCalls := calls);
  }

  // ----- One run of update_chat_msg

  /** The server's state together with what the client has built and everything that was sent. */
  datatype Session = Session(msg: Msg, cache: seq<string>, client: Msg, sent: seq<Diff>)

  const NEW_SESSION := Session(EMPTY_MSG, [], EMPTY_MSG, [])

  function Filled(m: Msg, cache: seq<string>, supply: nat -> string): Msg {
    GrownCacheGrows(m.toolCalls, cache, supply);
    m.(toolCalls := Stamped(m.toolCalls, GrownCache(m.toolCalls, cache, supply)))
  }

  /** Every call gets the id it had before, else its own, else a generated one. */
  lemma FilledIds(m: Msg, cache: seq<string>, supply: nat -> string, i: nat)
    requires i < |m.toolCalls|
    ensures var f := Filled(m, cache, supply).toolCalls;
            && |f| == |m.toolCalls|
            && f[i] == m.toolCalls[i].(id := if i < |cache| then cache[i]
                                             else if m.toolCalls[i].id != [] then m.toolCalls[i].id else supply(i))
  {
    GrownCacheGrows(m.toolCalls, cache, supply);
  }

  /** update_chat_msg after parsing: an empty parse changes nothing. */
  function Update(s: Session, m: Msg, supply: nat -> string): Result<Session> {
    if m.Empty() then Ok(s)
    else
      var filled := Filled(m, s.cache, supply);
      var ds :- Diffs(s.msg, filled);
      Ok(Session(filled, GrownCache(m.toolCalls, s.cache, supply), Fold(s.client, ds), s.sent + ds))
  }

  function Run(ms: seq<Msg>, supply: nat -> string): Result<Session> {
    if ms == [] then Ok(NEW_SESSION)
    else
      var s :- Run(ms[..|ms| - 1], supply);
      Update(s, ms[|ms| - 1], supply)
  }

  /** A parser's later message continues an earlier one; ids do not matter, they come from the cache. */
  predicate Grows(a: Msg, b: Msg) {
    var n := |a.toolCalls|;
    && a.content <= b.content
    && a.reasoning <= b.reasoning
    && n <= |b.toolCalls|
    && (forall i :: 0 <= i < n ==> a.toolCalls[i].name == b.toolCalls[i].name)
    && (forall i :: 0 <= i < n - 1 ==> a.toolCalls[i].arguments == b.toolCalls[i].arguments)
    && (n > 0 ==> a.toolCalls[n - 1].arguments <= b.toolCalls[n - 1].arguments)
  }

  predicate GrowingRun(ms: seq<Msg>) {
    forall i, j :: 0 <= i < j < |ms| && !ms[i].Empty() && !ms[j].Empty() ==> Grows(ms[i], ms[j])
  }

  /** The last message that is not empty. */
  function LastShown(ms: seq<Msg>): Msg {
    if ms == [] then EMPTY_MSG
    else if !ms[|ms| - 1].Empty() then ms[|ms| - 1]
    else LastShown(ms[..|ms| - 1])
  }

  /** The ids that the differences carry, in the order they are sent. */
  function IdsSent(ds: seq<Diff>): seq<string> {
    if ds == [] then []
    else (if ds[0].index.Some? && ds[0].callDelta.id != [] then [ds[0].callDelta.id] else []) + IdsSent(ds[1..])
  }

  lemma IdsSentConcat(ds: seq<Diff>, es: seq<Diff>)
    ensures IdsSent(ds + es) == IdsSent(ds) + IdsSent(es)
  {
    if ds == [] {
      assert ds + es == es;
    } else {
      assert (ds + es)[1..] == ds[1..] + es;
      IdsSentConcat(ds[1..], es);
    }
  }

  function Ids(calls: seq<ToolCall>): seq<string> {
    seq(|calls|, i requires 0 <= i < |calls| => calls[i].id)
  }

  lemma IdsOfNewCalls(m: Msg, from: nat)
    requires from <= |m.toolCalls|
    requires forall c <- m.toolCalls :: c.id != []
    ensures IdsSent(NewCallDiffs(m, from)) == Ids(m.toolCalls)[from..]
    decreases |m.toolCalls| - from
  {
    if from < |m.toolCalls| {
      IdsOfNewCalls(m, from + 1);
      var ds := NewCallDiffs(m, from);
      assert ds[1..] == NewCallDiffs(m, from + 1);
      assert m.toolCalls[from] in m.toolCalls;
      assert Ids(m.toolCalls)[from..] == [m.toolCalls[from].id] + Ids(m.toolCalls)[from + 1..];
    }
  }

  /** What holds between any two updates. */
  ghost predicate InStep(s: Session, shown: Msg) {
    && s.client == s.msg
    && |s.cache| == |shown.toolCalls|
    && s.msg == shown.(toolCalls := Stamped(shown.toolCalls, s.cache))
    && (forall id <- s.cache :: id != [])
    && IdsSent(s.sent) == s.cache
  }

  lemma GrowsThenExtends(s: Session, shown: Msg, m: Msg, supply: nat -> string)
    requires InStep(s, shown) && Grows(shown, m)
    ensures var f := Filled(m, s.cache, supply);
            && Extends(s.msg, f)
            && forall i :: 0 <= i < |s.msg.toolCalls| ==> s.msg.toolCalls[i].id == f.toolCalls[i].id
  {
    hide Diffs, Fold, IdsSent, GrownCache;
    GrownCacheGrows(m.toolCalls, s.cache, supply);
    var f := Filled(m, s.cache, supply);
    forall i | 0 <= i < |s.msg.toolCalls|
      ensures s.msg.toolCalls[i].id == f.toolCalls[i].id
    {
    }
  }

  lemma NoIdIn(ds: seq<Diff>)
    requires |ds| <= 1 && (ds != [] ==> ds[0].index.None? || ds[0].callDelta.id == [])
    ensures IdsSent(ds) == []
  {
  }

  lemma IdsSentInUpdate(a: Msg, b: Msg)
    requires Extends(a, b) && Diffs(a, b).Ok?
    requires forall c <- b.toolCalls :: c.id != []
    requires forall i :: 0 <= i < |a.toolCalls| ==> a.toolCalls[i].id == b.toolCalls[i].id
    ensures IdsSent(Diffs(a, b).value) == Ids(b.toolCalls)[|a.toolCalls|..]
  {
    hide StringDiff, IdsSent, NewCallDiffs, Extends;
    var r, c, l := ReasoningDiffs(a, b).value, ContentDiffs(a, b).value, LastCallDiffs(a, b).value;
    var k := NewCallDiffs(b, |a.toolCalls|);
    IdsSentConcat(r + c + l, k);
    IdsSentConcat(r + c, l);
    IdsSentConcat(r, c);
    NoIdIn(r);
    NoIdIn(c);
    NoIdIn(l);
    IdsOfNewCalls(b, |a.toolCalls|);
  }

  lemma FilledHasIds(m: Msg, cache: seq<string>, supply: nat -> string)
    requires |cache| <= |m.toolCalls|
    requires forall id <- cache :: id != []
    requires forall i: nat :: supply(i) != []
    ensures var c, f := GrownCache(m.toolCalls, cache, supply), Filled(m, cache, supply);
            && Ids(f.toolCalls) == c
            && (forall id <- c :: id != [])
            && (forall k <- f.toolCalls :: k.id != [])
  {
    GrownCacheGrows(m.toolCalls, cache, supply);
    var c, f := GrownCache(m.toolCalls, cache, supply), Filled(m, cache, supply);
    forall i | 0 <= i < |c|
      ensures c[i] != []
    {
      if i < |cache| {
        assert c[i] == cache[i] && cache[i] in cache;
      }
    }
    assert forall i :: 0 <= i < |f.toolCalls| ==> f.toolCalls[i].id == c[i];
    assert Ids(f.toolCalls) == c;
  }

  lemma UpdateKeepsStep(s: Session, shown: Msg, m: Msg, supply: nat -> string)
    requires InStep(s, shown) && Grows(shown, m) && !m.Empty()
    requires forall i: nat :: supply(i) != []
    ensures Update(s, m, supply).Ok?
    ensures var t := Update(s, m, supply).value; InStep(t, m) && s.cache <= t.cache
  {
    hide Diffs, Fold, IdsSent, GrownCache, Extends;
    var c, f := GrownCache(m.toolCalls, s.cache, supply), Filled(m, s.cache, supply);
    GrownCacheGrows(m.toolCalls, s.cache, supply);
    GrowsThenExtends(s, shown, m, supply);
    DiffsRebuild(s.msg, f);
    FilledHasIds(m, s.cache, supply);
    var ds := Diffs(s.msg, f).value;
    assert IdsSent(ds) == c[|s.cache|..] by {
      IdsSentInUpdate(s.msg, f);
    }
    IdsSentConcat(s.sent, ds);
    assert s.cache + c[|s.cache|..] == c;
  }

  lemma LastShownIsShown(ms: seq<Msg>)
    ensures LastShown(ms) == EMPTY_MSG || exists i :: 0 <= i < |ms| && ms[i] == LastShown(ms) && !ms[i].Empty()
  {
    if ms != [] && ms[|ms| - 1].Empty() {
      LastShownIsShown(ms[..|ms| - 1]);
    }
  }

  /** Main result: over any run of messages that only grow, no update throws, the client always holds exactly
      the message the server last showed, every tool-call id is sent exactly once and in order, and an id
      once assigned is never changed. */
  lemma {:induction false} RunRebuilds(ms: seq<Msg>, supply: nat -> string)
    requires GrowingRun(ms)
    requires forall i: nat :: supply(i) != []
    ensures Run(ms, supply).Ok?
    ensures InStep(Run(ms, supply).value, LastShown(ms))
    ensures forall k :: 0 <= k <= |ms| ==>
              Run(ms[..k], supply).Ok? && Run(ms[..k], supply).value.cache <= Run(ms, supply).value.cache
  {
    hide Diffs, Fold, IdsSent, GrownCache;
    if ms == [] {
      assert Stamped([], []) == [];
      assert IdsSent([]) == [] by { NoIdIn([]); }
    } else {
      var init, m := ms[..|ms| - 1], ms[|ms| - 1];
      RunRebuilds(init, supply);
      LastShownIsShown(init);
      if !m.Empty() {
        if LastShown(init) != EMPTY_MSG {
          var i :| 0 <= i < |init| && init[i] == LastShown(init) && !init[i].Empty();
          assert ms[i] == init[i];
        }
        UpdateKeepsStep(Run(init, supply).value, LastShown(init), m, supply);
      }
      forall k | 0 <= k <= |ms|
        ensures Run(ms[..k], supply).Ok? && Run(ms[..k], supply).value.cache <= Run(ms, supply).value.cache
      {
        if k == |ms| {
          assert ms[..k] == ms;
        } else {
          assert ms[..k] == init[..k];
        }
      }
    }
  }
}

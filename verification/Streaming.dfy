/** Streaming: the growing text is parsed from scratch after every chunk, and only differences reach the client. */
module Streaming {
  import opened Text
  import opened ChatMessage
  import opened ChatParser

  // ----- Monotonicity of the block loop

  /** Everything the parser makes of the text from a point on: what it adds, plus the unread rest as content. */
  function Shown(r: Parsed, input: string): Msg
    requires r.pos <= |input|
  {
    Msg(r.content + input[r.pos..], r.reasoning, [])
  }

  lemma PrefixOfConcat(a: string, b: string, c: string)
    requires b <= c
    ensures a + b <= a + c
  {
    assert a + c == a + b + c[|b|..];
  }

  lemma HandleGrows(th: Thinking, pending: string, x: string, y: string, closed: bool)
    requires x <= y
    ensures var g, h := HandleReasoning(th, pending, x, false), HandleReasoning(th, pending, y, closed);
            g.content <= h.content && g.reasoning <= h.reasoning
  {
    StripMonotone(x, y);
    var o, s, t := th.Opening(), Strip(x), Strip(y);
    PrefixOfConcat(o, s, t);
    PrefixOfConcat(pending, s, t);
  }

  lemma FindInExtension(a: string, b: string, lit: string, from: nat)
    requires a <= b && from <= |a|
    ensures Find(a, lit, from).Some? ==> Find(b, lit, from) == Find(a, lit, from)
    ensures Find(a, lit, from).None? && Find(b, lit, from).Some? ==> HoldBack(a, lit, from) <= Find(b, lit, from).value
  {
    FindFirst(a, lit, from);
    FindFirst(b, lit, from);
    var f, g := Find(a, lit, from), Find(b, lit, from);
    if f.Some? {
      forall j: nat
        ensures OccursAt(a, lit, j) <==> OccursAt(b, lit, j) && j + |lit| <= |a|
      {
        OccursInPrefix(a, b, lit, j);
      }
      FindIs(b, lit, from, f.value);
    } else if g.Some? {
      assert lit != [] by {
        assert !OccursAt(a, lit, from);
      }
      HoldBackExact(a, b, lit, from, g.value);
    }
  }

  lemma SkipInExtension(a: string, b: string, i: nat)
    requires a <= b && i <= |a|
    ensures SkipSpaces(a, i) < |a| ==> SkipSpaces(b, i) == SkipSpaces(a, i)
    ensures SkipSpaces(a, i) <= SkipSpaces(b, i)
    decreases |a| - i
  {
    if i < |a| && IsSpace(a[i]) {
      SkipInExtension(a, b, i + 1);
    }
  }

  lemma StartInExtension(th: Thinking, a: string, b: string, at: nat)
    requires a <= b && at < |a|
    ensures StartsHere(th, b, at) ==> StartsHere(th, a, at)
    ensures StartsHere(th, a, at) && StartRoom(th, a, at) == |th.start| ==>
              StartsHere(th, b, at) && StartRoom(th, b, at) == |th.start|
  {
    var n, m := StartRoom(th, a, at), StartRoom(th, b, at);
    assert a[at..at + n] == b[at..at + m][..n];
    assert th.start[..n] == th.start[..m][..n];
  }

  /** The first texts a block adds are already the first texts the whole loop adds. */
  lemma FirstBlockIsPrefix(th: Thinking, b: string, partial: bool, cursor: nat, pending: string)
    requires th.Valid() && cursor < |b|
    ensures var t, r := OneBlock(th, b, partial, cursor, pending), Blocks(th, b, partial, cursor, pending);
            t.content <= r.content && t.reasoning <= r.reasoning
  {
  }

  lemma AfterBlockGrows(th: Thinking, a: string, b: string, h: Emitted, from: nat)
    requires a <= b && from <= |a|
    ensures var t, u := AfterBlock(th, a, h, from), AfterBlock(th, b, h, from);
            && t.content == u.content == h.content && t.reasoning == u.reasoning == h.reasoning
            && (t.More? ==> u == t)
            && (t.Stop? && t.pos < |a| ==> u == t)
  {
    SkipInExtension(a, b, from);
    var next := SkipSpaces(a, from);
    if next < |a| {
      StartInExtension(th, a, b, next);
      if StartRoom(th, a, next) == |th.start| {
        assert a[next..next + |th.start|] == b[next..next + |th.start|];
      }
    }
  }

  /** Both texts read the same block, with its end tag in the shorter one. */
  lemma ClosedBlockGrows(th: Thinking, a: string, b: string, cursor: nat, pending: string)
    requires th.Valid() && a <= b && cursor < |a|
    requires Find(a, th.end, cursor).Some?
    ensures var t, u := OneBlock(th, a, true, cursor, pending), OneBlock(th, b, true, cursor, pending);
            && t.content == u.content && t.reasoning == u.reasoning
            && (t.More? ==> u == t)
            && (t.Stop? && t.pos < |a| ==> u == t)
  {
    hide HandleReasoning, AfterBlock, Find, HoldBack;
    FindInExtension(a, b, th.end, cursor);
    var e := Find(a, th.end, cursor).value;
    assert a[cursor..e] == b[cursor..e];
    AfterBlockGrows(th, a, b, HandleReasoning(th, pending, a[cursor..e], true), e + |th.end|);
  }

  /** The end tag is not in the shorter text yet. */
  lemma OpenBlockGrows(th: Thinking, a: string, b: string, cursor: nat, pending: string)
    requires th.Valid() && a <= b && cursor < |a|
    requires Find(a, th.end, cursor).None?
    ensures var t, u := OneBlock(th, a, true, cursor, pending), OneBlock(th, b, true, cursor, pending);
            t.Stop? && t.pos == |a| && t.content <= u.content && t.reasoning <= u.reasoning
  {
    FindInExtension(a, b, th.end, cursor);
    var stop := HoldBack(a, th.end, cursor);
    HoldBackMonotone(a, b, th.end, cursor);
    var e := match Find(b, th.end, cursor) case None => HoldBack(b, th.end, cursor) case Some(i) => i;
    SlicePrefix(a, b, cursor, stop, e);
    HandleGrows(th, pending, a[cursor..stop], b[cursor..e], false);
    HandleGrows(th, pending, a[cursor..stop], b[cursor..e], true);
  }

  lemma StoppedAtEndIsPrefix(r: Parsed, a: string, q: Parsed, b: string)
    requires r.pos == |a| && q.pos <= |b|
    requires r.content <= q.content && r.reasoning <= q.reasoning
    ensures Grows(Shown(r, a), Shown(q, b))
  {
    assert r.content + a[r.pos..] == r.content;
  }

  lemma ShownAfter(c: string, r: string, p: Parsed, a: string, q: Parsed, b: string)
    requires p.pos <= |a| && q.pos <= |b|
    requires Grows(Shown(p, a), Shown(q, b))
    ensures Grows(Shown(Parsed(true, p.pos, c + p.content, r + p.reasoning), a),
                  Shown(Parsed(true, q.pos, c + q.content, r + q.reasoning), b))
  {
    PrefixOfConcat(c, p.content + a[p.pos..], q.content + b[q.pos..]);
    assert (c + p.content) + a[p.pos..] == c + (p.content + a[p.pos..]);
    assert (c + q.content) + b[q.pos..] == c + (q.content + b[q.pos..]);
    PrefixOfConcat(r, p.reasoning, q.reasoning);
  }

  lemma {:induction false} BlocksGrow(th: Thinking, a: string, b: string, cursor: nat, pending: string)
    requires th.Valid() && a <= b && cursor <= |a|
    ensures Grows(Shown(Blocks(th, a, true, cursor, pending), a), Shown(Blocks(th, b, true, cursor, pending), b))
    decreases |a| - cursor
  {
    hide OneBlock, Find;
    var p, q := Blocks(th, a, true, cursor, pending), Blocks(th, b, true, cursor, pending);
    if cursor == |a| {
      StoppedAtEndIsPrefix(p, a, q, b);
      return;
    }
    FirstBlockIsPrefix(th, b, true, cursor, pending);
    var t, u := OneBlock(th, a, true, cursor, pending), OneBlock(th, b, true, cursor, pending);
    if Find(a, th.end, cursor).None? {
      OpenBlockGrows(th, a, b, cursor, pending);
      StoppedAtEndIsPrefix(p, a, q, b);
    } else {
      ClosedBlockGrows(th, a, b, cursor, pending);
      if t.More? {
        BlocksGrow(th, a, b, t.cursor, t.pending);
        ShownAfter(t.content, t.reasoning, Blocks(th, a, true, t.cursor, t.pending), a,
                   Blocks(th, b, true, t.cursor, t.pending), b);
      } else if t.pos == |a| {
        StoppedAtEndIsPrefix(p, a, q, b);
      } else {
        PrefixOfConcat(t.content, a[t.pos..], b[t.pos..]);
      }
    }
  }

  // ----- The content-only format

  /** Leading spaces, shown as content so far, are taken back: the longer text is spaces and a cut-off start tag. */
  predicate Withdraws(th: Thinking, a: string, b: string) {
    var ws := SkipSpaces(b, 0);
    && th.syntax.format != NoReasoning && !th.syntax.forcedOpen
    && a != [] && AllSpace(a)
    && ws < |b| && StartsHere(th, b, ws) && StartRoom(th, b, ws) < |th.start|
  }

  lemma SkipAllSpace(a: string)
    ensures SkipSpaces(a, 0) == |a| <==> AllSpace(a)
  {
    SkipsSpaces(a, 0);
  }

  /** Reasoning after leading spaces and a whole start tag: the spaces become content. */
  lemma TaggedShown(th: Thinking, b: string, partial: bool) returns (q: Parsed)
    requires th.Valid() && th.syntax.format != NoReasoning
    requires var ws := SkipSpaces(b, 0); ws < |b| && ws + |th.start| <= |b| && StartsHere(th, b, ws)
    ensures var ws := SkipSpaces(b, 0);
            && q == Blocks(th, b, partial, ws + |th.start|, ReasoningPrefix(th, b, ws, []))
            && Shown(Parsed(true, q.pos, b[..ws] + q.content, [] + q.reasoning), b) == ContentOnly(th, b, partial)
  {
    hide Blocks, StartsHere, SkipSpaces, HandleReasoning;
    var ws := SkipSpaces(b, 0);
    q := Blocks(th, b, partial, ws + |th.start|, ReasoningPrefix(th, b, ws, []));
    assert b[0..ws] == b[..ws];
    assert [] + q.reasoning == q.reasoning;
  }

  lemma UntaggedShown(th: Thinking, b: string, partial: bool)
    requires th.Valid() && !th.syntax.forcedOpen
    requires var ws := SkipSpaces(b, 0); ws == |b| || !StartsHere(th, b, ws)
    ensures ContentOnly(th, b, partial) == Msg(b, [], [])
  {
    hide Blocks, StartsHere, SkipSpaces, HandleReasoning;
    assert [] + b[0..] == b;
  }

  lemma SpacesThenStart(th: Thinking, a: string, b: string)
    requires th.Valid() && a <= b && AllSpace(a)
    requires th.syntax.format != NoReasoning && !th.syntax.forcedOpen
    requires !Withdraws(th, a, b)
    ensures Grows(ContentOnly(th, a, true), ContentOnly(th, b, true))
  {
    hide Blocks, StartsHere, SkipSpaces, Reasoning, ContentOnly;
    SkipAllSpace(a);
    SkipInExtension(a, b, 0);
    var ws := SkipSpaces(b, 0);
    UntaggedShown(th, a, true);
    if ws == |b| || !StartsHere(th, b, ws) {
      UntaggedShown(th, b, true);
    } else if a != [] {
      var q := TaggedShown(th, b, true);
      assert a == b[..ws][..|a|];
    }
  }

  lemma WithdrawnIsEmpty(th: Thinking, a: string, b: string, partial: bool)
    requires th.Valid() && Withdraws(th, a, b)
    ensures ContentOnly(th, b, partial).Empty()
  {
  }

  lemma ForcedSpacesShowNothing(th: Thinking, a: string)
    requires th.Valid() && AllSpace(a) && th.syntax.format != NoReasoning && th.syntax.forcedOpen
    ensures ContentOnly(th, a, true).Empty()
  {
    SkipAllSpace(a);
    var _, _ := StripSplits(a[0..]);
  }

  lemma SamePrefix(th: Thinking, a: string, b: string, ws: nat)
    requires a <= b && ws + |th.start| <= |a|
    ensures a[..ws] == b[..ws] && ReasoningPrefix(th, a, ws, []) == ReasoningPrefix(th, b, ws, [])
  {
    assert a[ws..ws + |th.start|] == b[ws..ws + |th.start|];
  }

  lemma TaggedGrows(th: Thinking, a: string, b: string)
    requires th.Valid() && a <= b && th.syntax.format != NoReasoning
    requires var ws := SkipSpaces(a, 0); ws < |a| && StartsHere(th, a, ws) && StartRoom(th, a, ws) == |th.start|
    ensures Grows(ContentOnly(th, a, true), ContentOnly(th, b, true))
  {
    hide Blocks, ContentOnly, StartsHere, SkipSpaces, Grows, Shown, Reasoning;
    SkipInExtension(a, b, 0);
    var ws := SkipSpaces(a, 0);
    StartInExtension(th, a, b, ws);
    SamePrefix(th, a, b, ws);
    BlocksGrow(th, a, b, ws + |th.start|, ReasoningPrefix(th, a, ws, []));
    var p := TaggedShown(th, a, true);
    var q := TaggedShown(th, b, true);
    ShownAfter(a[..ws], [], p, a, q, b);
  }

  lemma StartedGrows(th: Thinking, a: string, b: string)
    requires th.Valid() && a <= b && !AllSpace(a) && th.syntax.format != NoReasoning
    ensures Grows(ContentOnly(th, a, true), ContentOnly(th, b, true))
  {
    SkipAllSpace(a);
    SkipInExtension(a, b, 0);
    var ws := SkipSpaces(a, 0);
    StartInExtension(th, a, b, ws);
    if StartsHere(th, a, ws) {
      if StartRoom(th, a, ws) == |th.start| {
        TaggedGrows(th, a, b);
      } else {
        assert ContentOnly(th, a, true).Empty();
      }
    } else if th.syntax.forcedOpen {
      BlocksGrow(th, a, b, ws, []);
    } else {
      UntaggedShown(th, a, true);
      UntaggedShown(th, b, true);
    }
  }

  /** Main result on two texts: parsing the longer one continues what was parsed from the shorter one, for all
      tags and flags, exactly unless leading spaces are withdrawn. */
  lemma ContentOnlyGrows(th: Thinking, a: string, b: string)
    requires th.Valid() && a <= b
    ensures Grows(ContentOnly(th, a, true), ContentOnly(th, b, true)) <==> !Withdraws(th, a, b)
  {
    assert a[0..] == a && b[0..] == b;
    if Withdraws(th, a, b) {
      SkipAllSpace(a);
      WithdrawnIsEmpty(th, a, b, true);
      assert ContentOnly(th, a, true).content == [] + a;
    } else if th.syntax.format == NoReasoning {
      assert ContentOnly(th, a, true).content == [] + a && ContentOnly(th, b, true).content == [] + b;
    } else if !AllSpace(a) {
      StartedGrows(th, a, b);
    } else if th.syntax.forcedOpen {
      ForcedSpacesShowNothing(th, a);
    } else {
      SpacesThenStart(th, a, b);
    }
  }

  /** A text whose first character is not a space is never taken back. */
  lemma NoLeadingSpaceNeverWithdraws(th: Thinking, a: string, b: string)
    requires a <= b && (b != [] ==> !IsSpace(b[0]))
    ensures !Withdraws(th, a, b)
  {
    assert a != [] ==> a[0] == b[0];
  }

  /** The property without its condition is false of the code: " " shows a space, " <" takes it back. */
  lemma WithdrawalHappens()
    ensures var th := Thinking(Syntax(Auto, false, false), "<think>", "</think>");
            && ContentOnly(th, " ", true) == Msg(" ", [], [])
            && ContentOnly(th, " <", true) == EMPTY_MSG
            && !Grows(ContentOnly(th, " ", true), ContentOnly(th, " <", true))
  {
    var th := Thinking(Syntax(Auto, false, false), "<think>", "</think>");
    assert SkipSpaces(" ", 0) == SkipSpaces(" ", 1) == 1;
    assert SkipSpaces(" <", 0) == SkipSpaces(" <", 1) == 1;
    assert " <"[1..2] == "<think>"[..1];
  }

  // ----- The last parse, on the same text, with the partial flag off

  lemma {:induction false} BlocksFinal(th: Thinking, b: string, cursor: nat, pending: string)
    requires th.Valid() && cursor <= |b|
    ensures Grows(Shown(Blocks(th, b, true, cursor, pending), b), Shown(Blocks(th, b, false, cursor, pending), b))
    decreases |b| - cursor
  {
    if cursor < |b| {
      var t, u := OneBlock(th, b, true, cursor, pending), OneBlock(th, b, false, cursor, pending);
      if Find(b, th.end, cursor).None? {
        var x := b[cursor..HoldBack(b, th.end, cursor)];
        HandleGrows(th, pending, x, x, true);
        StoppedAtEndIsPrefix(Parsed(true, t.pos, t.content, t.reasoning), b, Parsed(true, u.pos, u.content, u.reasoning), b);
      } else if t.More? {
        BlocksFinal(th, b, t.cursor, t.pending);
        ShownAfter(t.content, t.reasoning, Blocks(th, b, true, t.cursor, t.pending), b,
                   Blocks(th, b, false, t.cursor, t.pending), b);
      }
    }
  }

  lemma FinalGrows(th: Thinking, b: string)
    requires th.Valid()
    ensures Grows(ContentOnly(th, b, true), ContentOnly(th, b, false))
  {
    hide Blocks, StartsHere, SkipSpaces, Strip;
    var ws := SkipSpaces(b, 0);
    if th.syntax.format != NoReasoning {
      if ws == |b| {
        var _, _ := StripSplits(b[0..]);
        SkipAllSpace(b);
      } else if StartsHere(th, b, ws) && StartRoom(th, b, ws) == |th.start| {
        BlocksFinal(th, b, ws + |th.start|, ReasoningPrefix(th, b, ws, []));
        var p := TaggedShown(th, b, true);
        var q := TaggedShown(th, b, false);
        ShownAfter(b[..ws], [], p, b, q, b);
      } else if !StartsHere(th, b, ws) && th.syntax.forcedOpen {
        BlocksFinal(th, b, ws, []);
      }
    }
  }

  lemma GrowsTransitive(a: Msg, b: Msg, c: Msg)
    requires Grows(a, b) && Grows(b, c) && a.toolCalls == []
    ensures Grows(a, c)
  {
  }

  // ----- Whole runs

  function Joined(chunks: seq<string>): string {
    if chunks == [] then [] else Joined(chunks[..|chunks| - 1]) + chunks[|chunks| - 1]
  }

  lemma {:induction false} JoinedPrefix(chunks: seq<string>, i: nat)
    requires i <= |chunks|
    ensures Joined(chunks[..i]) <= Joined(chunks)
    decreases |chunks|
  {
    if i == |chunks| {
      assert chunks[..i] == chunks;
    } else {
      var init := chunks[..|chunks| - 1];
      JoinedPrefix(init, i);
      assert init[..i] == chunks[..i];
    }
  }

  /** What the server parses after each chunk; the last parse may be the final, non-partial one. */
  function Parses(th: Thinking, chunks: seq<string>, finished: bool): seq<Msg>
    requires th.Valid()
  {
    seq(|chunks|, k requires 0 <= k < |chunks| =>
      ContentOnly(th, Joined(chunks[..k + 1]), !(finished && k == |chunks| - 1)))
  }

  lemma JoinedGrows(chunks: seq<string>, i: nat, j: nat)
    requires i <= j <= |chunks|
    ensures Joined(chunks[..i]) <= Joined(chunks[..j])
  {
    hide Joined;
    assert chunks[..j][..i] == chunks[..i];
    JoinedPrefix(chunks[..j], i);
  }

  lemma ParsesGrow(th: Thinking, chunks: seq<string>, finished: bool, i: nat, j: nat)
    requires th.Valid() && i < j < |chunks|
    ensures var ms := Parses(th, chunks, finished); !ms[j].Empty() ==> Grows(ms[i], ms[j])
  {
    hide Reasoning, Joined, Withdraws, Grows;
    var a, b := Joined(chunks[..i + 1]), Joined(chunks[..j + 1]);
    JoinedGrows(chunks, i + 1, j + 1);
    ContentOnlyGrows(th, a, b);
    FinalGrows(th, b);
    if Withdraws(th, a, b) {
      WithdrawnIsEmpty(th, a, b, true);
      WithdrawnIsEmpty(th, a, b, false);
    } else {
      GrowsTransitive(ContentOnly(th, a, true), ContentOnly(th, b, true), ContentOnly(th, b, false));
    }
  }

  /** Main result on runs: however the text arrives, and whatever it is, the server never throws on a difference,
      and the client always holds exactly the last message that was not empty. The withdrawal above does no harm,
      because an empty parse sends nothing. */
  lemma StreamingRunRebuilds(th: Thinking, chunks: seq<string>, finished: bool, supply: nat -> string)
    requires th.Valid()
    requires forall i: nat :: supply(i) != []
    ensures var ms := Parses(th, chunks, finished);
            && Run(ms, supply).Ok?
            && Run(ms, supply).value.client == LastShown(ms)
            && Run(ms, supply).value.msg == LastShown(ms)
  {
    hide Run, Grows;
    var ms := Parses(th, chunks, finished);
    forall i, j | 0 <= i < j < |ms| && !ms[i].Empty() && !ms[j].Empty()
      ensures Grows(ms[i], ms[j])
    {
      ParsesGrow(th, chunks, finished, i, j);
    }
    RunRebuilds(ms, supply);
    LastShownIsShown(ms);
    var shown := LastShown(ms);
    assert shown.toolCalls == [];
    assert Stamped([], Run(ms, supply).value.cache) == [];
  }

  // ----- The server's state (task_result_state)

  const THINK := "<think>"
  const END_THINK := "</think>"

  /** A session after the differences `r` have gone out. */
  function Delivered(msg: Msg, ids: seq<string>, client: Msg, sent: seq<Diff>, r: Result<seq<Diff>>): Result<Session> {
    match r
    case Ok(ds) => Ok(Session(msg, ids, Fold(client, ds), sent + ds))
    case Err(e) => Err(e)
  }

  class TaskState {
    const syntax: Syntax
    var text: string
    var msg: Msg
    var ids: seq<string>

    constructor (syntax: Syntax)
      ensures this.syntax == syntax && text == [] && msg == EMPTY_MSG && ids == []
    {
      this.syntax, text, msg, ids := syntax, [], EMPTY_MSG, [];
    }

    /** update_chat_msg for the content-only format: it takes the step `Update` of a session, whatever the client
        has and whatever was sent before. */
    method UpdateChatMsg(added: string, partial: bool, supply: nat -> string) returns (r: Result<seq<Diff>>)
      modifies this
      ensures text == old(text) + added
      ensures var m := ContentOnly(Thinking(syntax, THINK, END_THINK), text, partial);
              forall client: Msg, sent: seq<Diff> ::
                Update(Session(old(msg), old(ids), client, sent), m, supply) == Delivered(msg, ids, client, sent, r)
    {
      text := text + added;
      var before := msg;
      var parser := new MsgParser(text, partial, syntax);
      parser.ParseContentOnly(THINK, END_THINK);
      if parser.result.Empty() {
        assert forall sent: seq<Diff> :: sent + [] == sent;
        return Ok([]);
      }
      var filled;
      filled, ids := SetToolCallIds(parser.result, ids, supply);
      msg := filled;
      r := ComputeDiffs(before, filled);
    }
  }
}

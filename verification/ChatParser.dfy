/** The message parser of chat-parser.h and chat-parser.cpp: a cursor over the text, with the message built so far. */
module ChatParser {
  import opened Text
  import opened ChatMessage

  datatype ReasoningFormat = NoReasoning | Auto | DeepSeekLegacy | DeepSeek

  datatype Syntax = Syntax(format: ReasoningFormat, inContent: bool, forcedOpen: bool)

  /** A literal found in the text. The match is shorter than the literal when the text ends inside it. */
  datatype Match = Match(prelude: string, begin: nat, end: nat)

  // ----- What the operations compute

  function FindLiteral(input: string, partial: bool, pos: nat, literal: string): (m: Option<Match>)
    requires pos <= |input|
    ensures m.Some? ==> pos <= m.value.begin <= m.value.end <= |input| && m.value.prelude == input[pos..m.value.begin]
    ensures m.Some? ==> m.value.end - m.value.begin <= |literal| && (literal != [] ==> m.value.begin < m.value.end)
    ensures m.Some? && m.value.end - m.value.begin < |literal| ==> m.value.end == |input|
  {
    match Find(input, literal, pos)
    case Some(i) => Some(Match(input[pos..i], i, i + |literal|))
    case None =>
      if !partial then None
      else
        match PartialStop(input, literal)
        case Some(i) =>
          assert HoldsAt(input, literal, i) by { PartialStopLeast(input, literal, 0); }
          if i >= pos then Some(Match(input[pos..i], i, |input|)) else None
        case None => None
  }

  /** The two reasoning tags together with the syntax flags. */
  datatype Thinking = Thinking(syntax: Syntax, start: string, end: string) {
    function Opening(): string {
      if syntax.format == DeepSeek then "<think>" else start
    }

    function Closing(): string {
      if syntax.format == DeepSeek then "</think>" else end
    }

    /** With both tags empty the block loop of the source makes no progress. */
    predicate Valid() {
      start != [] || end != []
    }
  }

  /** What one reasoning block adds, and the opening literal that is still waiting to be surfaced. */
  datatype Emitted = Emitted(content: string, reasoning: string, pending: string)

  function HandleReasoning(th: Thinking, pending: string, block: string, closed: bool): Emitted {
    var text := Strip(block);
    if text == [] then Emitted([], [], pending)
    else if th.syntax.inContent then
      Emitted(th.Opening() + text + (if closed then th.Closing() else []), [], pending)
    else Emitted([], pending + text, [])
  }

  lemma HandleNothing(th: Thinking, pending: string, closed: bool)
    ensures HandleReasoning(th, pending, [], closed) == Emitted([], [], pending)
  {
  }

  function ReasoningPrefix(th: Thinking, input: string, at: nat, pending: string): string {
    if !th.syntax.forcedOpen || th.syntax.inContent then pending
    else if at + |th.start| > |input| then []
    else input[at..at + |th.start|]
  }

  /** The part of the start tag that the text at `at` has room for. */
  function StartRoom(th: Thinking, input: string, at: nat): nat
    requires at <= |input|
  {
    if |th.start| < |input| - at then |th.start| else |input| - at
  }

  predicate StartsHere(th: Thinking, input: string, at: nat)
    requires at <= |input|
  {
    input[at..at + StartRoom(th, input, at)] == th.start[..StartRoom(th, input, at)]
  }

  /** What parsing adds to the message and where the cursor ends. */
  datatype Parsed = Parsed(ok: bool, pos: nat, content: string, reasoning: string)

  /** One turn of the block loop: it adds texts, and either stops or goes on at a later cursor. */
  datatype Turn =
    | Stop(content: string, reasoning: string, pos: nat)
    | More(content: string, reasoning: string, cursor: nat, pending: string)

  function OneBlock(th: Thinking, input: string, partial: bool, cursor: nat, pending: string): (t: Turn)
    requires th.Valid() && cursor < |input|
    ensures t.Stop? ==> t.pos <= |input|
    ensures t.More? ==> cursor < t.cursor <= |input|
  {
    match Find(input, th.end, cursor)
    case None =>
      var stop := HoldBack(input, th.end, cursor);
      var h := HandleReasoning(th, pending, input[cursor..stop], stop == |input| && !partial);
      Stop(h.content, h.reasoning, |input|)
    case Some(e) =>
      AfterBlock(th, input, HandleReasoning(th, pending, input[cursor..e], true), e + |th.end|)
  }

  /** What follows a closed block: the end of the text, another start tag (whole or cut off), or content. */
  function AfterBlock(th: Thinking, input: string, h: Emitted, from: nat): (t: Turn)
    requires from <= |input|
    ensures t.Stop? ==> t.pos <= |input|
    ensures t.More? ==> from + |th.start| <= t.cursor <= |input|
  {
    var next := SkipSpaces(input, from);
    if next == |input| || !StartsHere(th, input, next) then Stop(h.content, h.reasoning, next)
    else if StartRoom(th, input, next) < |th.start| then Stop(h.content, h.reasoning, |input|)
    else More(h.content, h.reasoning, next + |th.start|, ReasoningPrefix(th, input, next, h.pending))
  }

  /** The block loop of try_parse_reasoning from `cursor` on. */
  function Blocks(th: Thinking, input: string, partial: bool, cursor: nat, pending: string): (r: Parsed)
    requires th.Valid() && cursor <= |input|
    ensures r.ok && r.pos <= |input|
    decreases |input| - cursor
  {
    if cursor >= |input| then Parsed(true, |input|, [], [])
    else
      match OneBlock(th, input, partial, cursor, pending)
      case Stop(c, r, pos) => Parsed(true, pos, c, r)
      case More(c, r, next, pend) =>
        var q := Blocks(th, input, partial, next, pend);
        Parsed(true, q.pos, c + q.content, r + q.reasoning)
  }

  /** try_parse_reasoning from `pos`. */
  function Reasoning(th: Thinking, input: string, partial: bool, pos: nat): (r: Parsed)
    requires th.Valid() && pos <= |input|
    ensures r.pos <= |input|
  {
    if th.syntax.format == NoReasoning then Parsed(false, pos, [], [])
    else
      var ws := SkipSpaces(input, pos);
      if ws == |input| then
        if th.syntax.forcedOpen then
          var h := HandleReasoning(th, [], input[pos..], !partial);
          Parsed(true, |input|, h.content, h.reasoning)
        else Parsed(false, pos, [], [])
      else if StartsHere(th, input, ws) then
        if StartRoom(th, input, ws) < |th.start| then Parsed(true, |input|, [], [])
        else
          var r := Blocks(th, input, partial, ws + |th.start|, ReasoningPrefix(th, input, ws, []));
          Parsed(true, r.pos, input[pos..ws] + r.content, r.reasoning)
      else if th.syntax.forcedOpen then Blocks(th, input, partial, ws, [])
      else Parsed(false, pos, [], [])
  }

  /** common_chat_parse_content_only on a fresh parser, for any pair of tags. */
  function ContentOnly(th: Thinking, input: string, partial: bool): Msg
    requires th.Valid()
  {
    var r := Reasoning(th, input, partial, 0);
    Msg(r.content + input[r.pos..], r.reasoning, [])
  }

  function Plus(m: Msg, content: string, reasoning: string): Msg {
    m.(content := m.content + content, reasoning := m.reasoning + reasoning)
  }

  lemma PlusNothing(m: Msg)
    ensures Plus(m, [], []) == m
  {
    assert m.content + [] == m.content && m.reasoning + [] == m.reasoning;
  }

  lemma PlusTwice(m: Msg, c: string, r: string, c': string, r': string)
    ensures Plus(Plus(m, c, r), c', r') == Plus(m, c + c', r + r')
  {
    assert (m.content + c) + c' == m.content + (c + c');
    assert (m.reasoning + r) + r' == m.reasoning + (r + r');
  }

  // ----- The parser object

  class MsgParser {
    const input: string
    const partial: bool
    const syntax: Syntax
    var pos: nat
    var result: Msg

    ghost predicate Valid()
      reads this
    {
      pos <= |input|
    }

    constructor (input: string, partial: bool, syntax: Syntax)
      ensures Valid() && this.input == input && this.partial == partial && this.syntax == syntax
      ensures pos == 0 && result == EMPTY_MSG
    {
      this.input, this.partial, this.syntax := input, partial, syntax;
      pos, result := 0, EMPTY_MSG;
    }

    /** move_to throws on a position past the end: the `false` result. */
    method MoveTo(p: nat) returns (ok: bool)
      requires Valid()
      modifies this`pos
      ensures Valid() && ok == (p <= |input|) && pos == if ok then p else old(pos)
    {
      ok := p <= |input|;
      if ok { pos := p; }
    }

    method AddContent(s: string)
      modifies this`result
      ensures result == old(result).(content := old(result).content + s)
    {
      result := result.(content := result.content + s);
    }

    method AddReasoning(s: string)
      modifies this`result
      ensures result == old(result).(reasoning := old(result).reasoning + s)
    {
      result := result.(reasoning := result.reasoning + s);
    }

    /** add_tool_call refuses a call without a name. */
    method AddToolCall(name: string, id: string, arguments: string) returns (ok: bool)
      modifies this`result
      ensures ok == (name != [])
      ensures result == if ok then old(result).(toolCalls := old(result).toolCalls + [ToolCall(name, arguments, id)])
                        else old(result)
    {
      if name == [] { return false; }
      result := result.(toolCalls := result.toolCalls + [ToolCall(name, arguments, id)]);
      return true;
    }

    method ConsumeSpaces() returns (consumed: bool)
      requires Valid()
      modifies this`pos
      ensures Valid() && pos == SkipSpaces(input, old(pos)) && consumed == (pos > old(pos))
    {
      consumed := false;
      while pos < |input| && IsSpace(input[pos])
        invariant Valid() && pos >= old(pos) && consumed == (pos > old(pos))
        invariant SkipSpaces(input, pos) == SkipSpaces(input, old(pos))
      {
        pos := pos + 1;
        consumed := true;
      }
    }

    method TryConsumeLiteral(literal: string) returns (ok: bool)
      requires Valid()
      modifies this`pos
      ensures Valid() && ok == OccursAt(input, literal, old(pos))
      ensures pos == if ok then old(pos) + |literal| else old(pos)
    {
      var p := pos;
      for i := 0 to |literal|
        invariant p == pos + i <= |input|
        invariant forall k :: 0 <= k < i ==> input[pos + k] == literal[k]
      {
        if p >= |input| { return false; }
        if input[p] != literal[i] {
          assert pos + |literal| <= |input| ==> input[pos..pos + |literal|][i] == input[p];
          return false;
        }
        p := p + 1;
      }
      assert input[pos..p] == literal;
      pos := p;
      return true;
    }

    method TryFindLiteral(literal: string) returns (m: Option<Match>)
      requires Valid()
      modifies this`pos
      ensures Valid() && m == FindLiteral(input, partial, old(pos), literal)
      ensures pos == if m.Some? then m.value.end else old(pos)
    {
      var idx := Find(input, literal, pos);
      if idx.Some? {
        var end := idx.value + |literal|;
        m := Some(Match(input[pos..idx.value], idx.value, end));
        pos := end;
        return;
      }
      if partial {
        idx := FindPartialStop(input, literal);
        if idx.Some? && idx.value >= pos {
          m := Some(Match(input[pos..idx.value], idx.value, |input|));
          pos := |input|;
          return;
        }
      }
      return None;
    }

    method ConsumeRest() returns (rest: string)
      requires Valid()
      modifies this`pos
      ensures Valid() && rest == input[old(pos)..] && pos == |input|
    {
      rest := input[pos..];
      pos := |input|;
    }

    /** handle_reasoning of try_parse_reasoning; `pending` is the captured opening literal. */
    method EmitReasoning(th: Thinking, pending: string, block: string, closed: bool) returns (pending': string)
      modifies this`result
      ensures var h := HandleReasoning(th, pending, block, closed);
              result == Plus(old(result), h.content, h.reasoning) && pending' == h.pending
    {
      pending' := pending;
      var text := StringStrip(block);
      PlusNothing(result);
      if text == [] {
        return;
      }
      if th.syntax.inContent {
        AddContent(th.Opening());
        AddContent(text);
        if closed {
          AddContent(th.Closing());
        }
      } else {
        if pending' != [] {
          AddReasoning(pending');
          pending' := [];
        }
        AddReasoning(text);
      }
    }

    /** The first position at or after `from` that is not a space. */
    method SkipFrom(from: nat) returns (p: nat)
      requires from <= |input|
      ensures p == SkipSpaces(input, from)
    {
      p := from;
      while p < |input| && IsSpace(input[p])
        invariant from <= p <= |input|
        invariant SkipSpaces(input, from) == SkipSpaces(input, p)
      {
        p := p + 1;
      }
    }

    /** try_parse_reasoning. */
    method TryParseReasoning(start: string, end: string) returns (ok: bool)
      requires Valid()
      requires start != [] || end != []
      modifies this`pos, this`result
      ensures Valid()
      ensures var r := Reasoning(Thinking(syntax, start, end), input, partial, old(pos));
              ok == r.ok && pos == r.pos && result == Plus(old(result), r.content, r.reasoning)
    {
      hide HandleReasoning, StartsHere, SkipSpaces, Blocks;
      var th := Thinking(syntax, start, end);
      PlusNothing(result);
      if syntax.format == NoReasoning {
        return false;
      }
      var ws := SkipFrom(pos);
      if ws >= |input| {
        if syntax.forcedOpen {
          var rest := input[pos..];
          HandleNothing(th, [], !partial);
          if rest != [] {
            var _ := EmitReasoning(th, [], rest, !partial);
          }
          pos := |input|;
          return true;
        }
        return false;
      }
      if StartsHere(th, input, ws) {
        if StartRoom(th, input, ws) < |start| {
          pos := |input|;
          return true;
        }
        ghost var lead := input[pos..ws];
        if ws > pos {
          AddContent(input[pos..ws]);
        }
        assert result == Plus(old(result), lead, []);
        var pending := ReasoningPrefix(th, input, ws, []);
        ghost var r := Blocks(th, input, partial, ws + |start|, pending);
        RunBlocks(th, ws + |start|, pending);
        ok := true;
        PlusTwice(old(result), lead, [], r.content, r.reasoning);
      } else if syntax.forcedOpen {
        RunBlocks(th, ws, []);
        ok := true;
      } else {
        return false;
      }
    }

    /** One turn of the `while (true)` loop of try_parse_reasoning. */
    method RunOneBlock(th: Thinking, cursor: nat, pending: string) returns (stopped: bool, cursor': nat, pending': string)
      requires Valid() && th.Valid() && cursor < |input|
      modifies this`pos, this`result
      ensures Valid()
      ensures var t := OneBlock(th, input, partial, cursor, pending);
              && stopped == t.Stop?
              && result == Plus(old(result), t.content, t.reasoning)
              && (stopped ==> pos == t.pos)
              && (!stopped ==> cursor' == t.cursor && pending' == t.pending)
    {
      hide HandleReasoning, StartsHere, SkipSpaces;
      stopped, cursor', pending' := true, cursor, pending;
      PlusNothing(result);
      var found := Find(input, th.end, cursor);
      if found.None? {
        var off := FindPartialStop(input[cursor..], th.end);
        var stop := if off.None? then |input| else cursor + off.value;
        assert stop == HoldBack(input, th.end, cursor) by {
          HoldBackSuffix(input, th.end, cursor);
        }
        HandleNothing(th, pending, off.None? && !partial);
        assert stop == cursor ==> input[cursor..stop] == [];
        if stop > cursor {
          pending' := EmitReasoning(th, pending, input[cursor..stop], off.None? && !partial);
        }
        pos := |input|;
        return;
      }
      var e := found.value;
      assert e == cursor ==> input[cursor..e] == [];
      pending' := EmitReasoning(th, pending, if e > cursor then input[cursor..e] else [], true);
      cursor' := SkipFrom(e + |th.end|);
      if cursor' == |input| || !StartsHere(th, input, cursor') {
        pos := cursor';
        return;
      }
      if StartRoom(th, input, cursor') < |th.start| {
        pos := |input|;
        return;
      }
      pending' := ReasoningPrefix(th, input, cursor', pending');
      cursor' := cursor' + |th.start|;
      stopped := false;
    }

    /** The `while (true)` loop of try_parse_reasoning, over a local cursor. */
    method RunBlocks(th: Thinking, from: nat, captured: string)
      requires Valid() && th.Valid() && from <= |input|
      modifies this`pos, this`result
      ensures Valid()
      ensures var r := Blocks(th, input, partial, from, captured);
              pos == r.pos && result == Plus(old(result), r.content, r.reasoning)
    {
      ghost var whole := Blocks(th, input, partial, from, captured);
      ghost var final := Plus(result, whole.content, whole.reasoning);
      var cursor, pending := from, captured;
      while cursor < |input|
        invariant Valid() && cursor <= |input|
        invariant Blocks(th, input, partial, cursor, pending).pos == whole.pos
        invariant var r := Blocks(th, input, partial, cursor, pending); Plus(result, r.content, r.reasoning) == final
      {
        ghost var now, t := result, OneBlock(th, input, partial, cursor, pending);
        var stopped;
        stopped, cursor, pending := RunOneBlock(th, cursor, pending);
        if stopped {
          return;
        }
        ghost var q := Blocks(th, input, partial, cursor, pending);
        PlusTwice(now, t.content, t.reasoning, q.content, q.reasoning);
      }
      PlusNothing(result);
      pos := |input|;
    }

    /** common_chat_parse_content_only followed by finish(), which accepts: all text is consumed. */
    method ParseContentOnly(start: string, end: string)
      requires Valid() && pos == 0 && result == EMPTY_MSG
      requires start != [] || end != []
      modifies this`pos, this`result
      ensures Valid() && pos == |input|
      ensures result == ContentOnly(Thinking(syntax, start, end), input, partial)
    {
      ghost var r := Reasoning(Thinking(syntax, start, end), input, partial, 0);
      var _ := TryParseReasoning(start, end);
      assert [] + r.content == r.content && [] + r.reasoning == r.reasoning;
      assert result == Msg(r.content, r.reasoning, []);
      var rest := ConsumeRest();
      AddContent(rest);
    }
  }
}

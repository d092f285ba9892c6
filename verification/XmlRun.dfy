/** A whole scope of rendered tool calls: read back exactly once complete, and until then shown as a growing prefix. */
module XmlRun {
  import opened Text
  import opened ChatMessage
  import opened ChatParser
  import opened Utf8
  import opened JsonString
  import opened XmlToolCall
  import opened XmlRendering
  import opened XmlStreaming

  // ----- The delimiters of two formats

  /** common_chat_parse_minimax_m2. */
  const MINIMAX_M2 := Form("<minimax:tool_call>", "<invoke name=\"", "\">", "<parameter name=\"", "\">",
                           "</parameter>", "</invoke>", "</minimax:tool_call>", None, false)

  /** common_chat_parse_seed_oss. */
  const SEED_OSS := Form("<seed:tool_call>", "<function=", ">", "<parameter=", ">",
                         "</parameter>", "</function>", "</seed:tool_call>", None, false)

  /** common_chat_parse_glm_4_5: no scope, nothing between the name and the first key, and a second separator. */
  const GLM_4_5 := Form("", "<tool_call>", "", "<arg_key>", "</arg_key>",
                        "</arg_value>", "</tool_call>", "", Some("<arg_value>"), false)

  lemma MiniMaxScopeTags(f: Form)
    requires f.scopeStart == "<minimax:tool_call>" && f.scopeEnd == "</minimax:tool_call>"
    ensures IsTag(f.scopeStart) && IsTag(f.scopeEnd)
  {
  }

  lemma MiniMaxToolTags(f: Form)
    requires f.toolStart == "<invoke name=\"" && f.toolSep == "\">" && f.toolEnd == "</invoke>"
    ensures IsTag(f.toolStart) && IsTag(f.toolSep) && IsTag(f.toolEnd)
  {
  }

  lemma MiniMaxArgumentTags(f: Form)
    requires f.keyStart == "<parameter name=\"" && f.keyValSep == "\">" && f.valEnd == "</parameter>"
    ensures IsTag(f.keyStart) && IsTag(f.keyValSep) && IsTag(f.valEnd)
  {
  }

  lemma MiniMaxApart(f: Form)
    requires f == MINIMAX_M2.(trim := f.trim)
    ensures Apart(f.keyStart, f.toolEnd) && Apart(f.toolStart, f.scopeEnd)
  {
    assert f.keyStart[1] != f.toolEnd[1];
    assert f.toolStart[1] != f.scopeEnd[1];
  }

  lemma MiniMaxIsSafe(f: Form)
    requires f == MINIMAX_M2.(trim := f.trim)
    ensures SafeForm(f)
  {
    hide IsTag, Apart;
    MiniMaxScopeTags(f);
    MiniMaxToolTags(f);
    MiniMaxArgumentTags(f);
    MiniMaxApart(f);
  }

  lemma SeedScopeTags(f: Form)
    requires f.scopeStart == "<seed:tool_call>" && f.scopeEnd == "</seed:tool_call>"
    ensures IsTag(f.scopeStart) && IsTag(f.scopeEnd)
  {
  }

  lemma SeedToolTags(f: Form)
    requires f.toolStart == "<function=" && f.toolSep == ">" && f.toolEnd == "</function>"
    ensures IsTag(f.toolStart) && IsTag(f.toolSep) && IsTag(f.toolEnd)
  {
  }

  lemma SeedArgumentTags(f: Form)
    requires f.keyStart == "<parameter=" && f.keyValSep == ">" && f.valEnd == "</parameter>"
    ensures IsTag(f.keyStart) && IsTag(f.keyValSep) && IsTag(f.valEnd)
  {
  }

  lemma SeedApart(f: Form)
    requires f == SEED_OSS.(trim := f.trim)
    ensures Apart(f.keyStart, f.toolEnd) && Apart(f.toolStart, f.scopeEnd)
  {
    assert f.keyStart[1] != f.toolEnd[1];
    assert f.toolStart[1] != f.scopeEnd[1];
  }

  lemma SeedIsSafe(f: Form)
    requires f == SEED_OSS.(trim := f.trim)
    ensures SafeForm(f)
  {
    hide IsTag, Apart;
    SeedScopeTags(f);
    SeedToolTags(f);
    SeedArgumentTags(f);
    SeedApart(f);
  }

  lemma GlmToolTags(f: Form)
    requires f.toolStart == "<tool_call>" && f.toolEnd == "</tool_call>"
    ensures IsTag(f.toolStart) && IsTag(f.toolEnd)
  {
  }

  lemma GlmArgumentTags(f: Form)
    requires f.keyStart == "<arg_key>" && f.keyValSep == "</arg_key>" && f.valEnd == "</arg_value>" && f.keyValSep2 == Some("<arg_value>")
    ensures IsTag(f.keyStart) && IsTag(f.keyValSep) && IsTag(f.valEnd) && IsTag(Sep2(f)) && Sep2(f) != []
  {
  }

  lemma GlmIsSafe(f: Form)
    requires f == GLM_4_5.(trim := f.trim)
    ensures SafeForm(f)
  {
    hide IsTag, Apart;
    GlmToolTags(f);
    GlmArgumentTags(f);
    assert Apart(f.keyStart, f.toolEnd) by { GlmApart(f); }
    assert f.keyStart[0] == f.toolEnd[0];
  }

  lemma GlmApart(f: Form)
    requires f.keyStart == "<arg_key>" && f.toolEnd == "</tool_call>"
    ensures Apart(f.keyStart, f.toolEnd)
  {
    assert f.keyStart[1] != f.toolEnd[1];
  }

  /** All three formats have safe delimiters, with or without trimming. */
  lemma FormatsAreSafe(trim: bool)
    ensures SafeForm(MINIMAX_M2.(trim := trim)) && SafeForm(SEED_OSS.(trim := trim)) && SafeForm(GLM_4_5.(trim := trim))
    ensures EndIsForeign(MINIMAX_M2) && EndIsForeign(SEED_OSS) && EndIsForeign(GLM_4_5)
  {
    hide SafeForm;
    MiniMaxIsSafe(MINIMAX_M2.(trim := trim));
    SeedIsSafe(SEED_OSS.(trim := trim));
    GlmIsSafe(GLM_4_5.(trim := trim));
  }

  /** A tool's end begins in what ends a name only at its beginning. */
  predicate EndIsForeign(f: Form)
    requires NameEnder(f) != [] && f.toolEnd != []
  {
    f.toolEnd[0] !in NameEnder(f) || f.toolEnd[0] == NameEnder(f)[0]
  }

  // ----- The round trip

  /** All calls with the white space before the scope and before its closing tag. */
  datatype Scope = Scope(gap: string, calls: seq<Call>, close: string)

  function RenderCalls(f: Form, calls: seq<Call>): string {
    if calls == [] then [] else RenderCall(f, calls[0]) + RenderCalls(f, calls[1..])
  }

  function Render(f: Form, s: Scope): string {
    s.gap + (f.scopeStart + (RenderCalls(f, s.calls) + (s.close + f.scopeEnd)))
  }

  ghost predicate SafeScope(f: Form, s: Scope) {
    && SafeForm(f) && AllSpace(s.gap) && AllSpace(s.close)
    && (f.scopeStart == [] ==> s.gap == []) && (f.scopeEnd == [] ==> s.close == [])
    && forall c <- s.calls :: SafeCall(f, c)
  }

  ghost predicate StreamableScope(f: Form, s: Scope) {
    SafeScope(f, s) && forall c <- s.calls :: Streamable(f, c)
  }

  function Finals(f: Form, calls: seq<Call>): seq<ToolCall> {
    if calls == [] then [] else [FinalCall(f, calls[0])] + Finals(f, calls[1..])
  }

  /** Behind its white space the text does not go on with the delimiter, whole or, where that matters, cut off. */
  predicate NotAhead(lit: string, y: string, partial: bool) {
    var z := y[SkipSpaces(y, 0)..];
    z == [] || (!(lit <= z) && (partial ==> !(z <= lit)))
  }

  lemma NotAheadFinds(input: string, partial: bool, pos: nat, lit: string)
    requires IsTag(lit) && pos <= |input| && NotAhead(lit, input[pos..], partial)
    ensures var m := FindLiteral(input, partial, pos, lit); m.Some? ==> !AllSpace(m.value.prelude)
  {
    hide FindLiteral, SkipSpaces, IsTag;
    var y := input[pos..];
    var i := SkipSpaces(y, 0);
    SkipsSpaces(y, 0);
    var gap, z := y[..i], y[i..];
    assert y == gap + z && (z != [] ==> z[0] == y[i]);
    assert AllSpace(gap);
    if z == [] {
      assert gap == y;
      BlankFindsNone(input, partial, pos, lit);
    } else {
      LiteralElsewhere(input, partial, pos, gap, lit, z);
    }
  }

  /** Without an end tag the scope ends where no tool follows. */
  lemma OpenEnd(f: Form, input: string, partial: bool, start: nat, pos: nat, calls: seq<ToolCall>, recovery: bool)
    requires SafeForm(f) && f.scopeEnd == [] && start <= pos <= |input| && NotAhead(f.toolStart, input[pos..], partial)
    ensures Tools(f, input, partial, start, pos, calls, recovery) == Out(Returned(true), pos, calls)
  {
    hide FindLiteral, NameMatch, Arguments, CloseTool, SkipSpaces, IsTag;
    NotAheadFinds(input, partial, pos, f.toolStart);
    NothingFound(input, partial, pos);
  }

  lemma BlankFindsNone(input: string, partial: bool, pos: nat, lit: string)
    requires IsTag(lit) && pos <= |input| && AllSpace(input[pos..])
    ensures FindLiteral(input, partial, pos, lit) == None
  {
    BlankFindsNothing(input, pos, lit);
  }

  lemma NothingFound(input: string, partial: bool, pos: nat)
    requires pos <= |input|
    ensures FindLiteral(input, partial, pos, []) == Some(Match([], pos, pos))
  {
    assert input[pos..pos] == [];
  }

  lemma ScopeEndRead(f: Form, input: string, partial: bool, start: nat, pos: nat, calls: seq<ToolCall>, recovery: bool, gap: string, y: string)
    requires SafeForm(f) && AllSpace(gap) && start <= pos <= |input| && input[pos..] == gap + (f.scopeEnd + y)
    requires f.scopeEnd == [] ==> gap == [] && NotAhead(f.toolStart, y, partial)
    ensures Tools(f, input, partial, start, pos, calls, recovery) == Out(Returned(true), pos + |gap| + |f.scopeEnd|, calls)
  {
    hide FindLiteral, NameMatch, Arguments, CloseTool;
    if f.scopeEnd == [] {
      assert gap + (f.scopeEnd + y) == y;
      OpenEnd(f, input, partial, start, pos, calls, recovery);
      return;
    }
    var e := f.scopeEnd + y;
    assert f.scopeEnd <= e && e[0] == f.scopeEnd[0];
    ApartStays(f.toolStart, f.scopeEnd, e);
    LiteralElsewhere(input, partial, pos, gap, f.toolStart, e);
    LiteralBehind(input, partial, pos, gap, f.scopeEnd, y);
  }

  lemma RenderCallsSplit(f: Form, calls: seq<Call>, y: string)
    requires calls != []
    ensures RenderCalls(f, calls) + y == RenderCall(f, calls[0]) + (RenderCalls(f, calls[1..]) + y)
    ensures |RenderCalls(f, calls)| == |RenderCall(f, calls[0])| + |RenderCalls(f, calls[1..])|
  {
    hide RenderCall;
  }

  lemma ToolsStep(f: Form, input: string, partial: bool, start: nat, pos: nat, calls: seq<ToolCall>, recovery: bool, c: Call, y: string)
    requires SafeForm(f) && SafeCall(f, c) && start <= pos <= |input| && input[pos..] == RenderCall(f, c) + y
    ensures var next := pos + |RenderCall(f, c)|;
            && next <= |input| && input[next..] == y
            && Tools(f, input, partial, start, pos, calls, recovery)
               == Tools(f, input, partial, start, next, calls + [FinalCall(f, c)], false)
  {
    hide OneTool, SafeCall, IsTag, RenderCall, FinalCall;
    CallRead(f, input, partial, pos, c, y);
  }

  /** The tool loop takes all calls that are complete, whatever comes behind them. */
  lemma {:induction false} ToolsReach(f: Form, input: string, partial: bool, start: nat, pos: nat, done: seq<ToolCall>, recovery: bool,
                                      calls: seq<Call>, y: string)
    requires SafeForm(f) && (forall c <- calls :: SafeCall(f, c))
    requires start <= pos <= |input| && input[pos..] == RenderCalls(f, calls) + y
    ensures var end := pos + |RenderCalls(f, calls)|;
            && end <= |input| && input[end..] == y
            && Tools(f, input, partial, start, pos, done, recovery)
               == Tools(f, input, partial, start, end, done + Finals(f, calls), recovery && calls == [])
    decreases |calls|
  {
    hide SafeCall, IsTag, RenderCall, FinalCall, Tools;
    if calls == [] {
      assert [] + y == y && done + [] == done;
    } else {
      var c, rest := calls[0], calls[1..];
      RenderCallsSplit(f, calls, y);
      ToolsStep(f, input, partial, start, pos, done, recovery, c, RenderCalls(f, rest) + y);
      ToolsReach(f, input, partial, start, pos + |RenderCall(f, c)|, done + [FinalCall(f, c)], false, rest, y);
      assert done + [FinalCall(f, c)] + Finals(f, rest) == done + Finals(f, calls);
    }
  }

  /** The opening tag of the scope is there. */
  lemma ScopeOpened(f: Form, pre: string, gap: string, y: string, partial: bool, done: seq<ToolCall>)
    requires SafeForm(f) && AllSpace(gap) && (f.scopeStart == [] ==> gap == [])
    ensures var input, at := pre + (gap + (f.scopeStart + y)), |pre| + |gap| + |f.scopeStart|;
            && at <= |input| && input[at..] == y
            && ParseXml(f, input, partial, |pre|, done) == Tools(f, input, partial, |pre|, at, done, true)
  {
    hide Tools, FindLiteral;
    var input := pre + (gap + (f.scopeStart + y));
    assert input[|pre|..] == gap + (f.scopeStart + y);
    if f.scopeStart == [] {
      assert gap + (f.scopeStart + y) == y;
    } else {
      TagIsNotSpace(f.scopeStart);
      LiteralBehind(input, partial, |pre|, gap, f.scopeStart, y);
    }
  }

  lemma RenderText(f: Form, pre: string, s: Scope, post: string)
    ensures pre + Render(f, s) + post == pre + (s.gap + (f.scopeStart + (RenderCalls(f, s.calls) + (s.close + (f.scopeEnd + post)))))
    ensures |pre + Render(f, s)| == |pre| + |s.gap| + |f.scopeStart| + |RenderCalls(f, s.calls)| + |s.close| + |f.scopeEnd|
  {
    hide RenderCalls;
  }

  /** Main result, round trip: whatever comes before and behind (only, where the scope has no closing tag, no further tool),
      and whatever white space stands before the tags, rendered safe calls are read back exactly, behind the calls already
      there, and the cursor ends right behind the scope's closing tag. */
  lemma RoundTrip(f: Form, pre: string, s: Scope, post: string, partial: bool, done: seq<ToolCall>)
    requires SafeScope(f, s) && (f.scopeEnd == [] ==> NotAhead(f.toolStart, post, partial))
    ensures ParseXml(f, pre + Render(f, s) + post, partial, |pre|, done)
         == Out(Returned(true), |pre + Render(f, s)|, done + Finals(f, s.calls))
  {
    hide SafeCall, Tools, FindLiteral, RenderCalls, Finals, ParseXml, Render, SafeForm, AllSpace;
    RenderText(f, pre, s, post);
    var input, tail := pre + Render(f, s) + post, s.close + (f.scopeEnd + post);
    ScopeOpened(f, pre, s.gap, RenderCalls(f, s.calls) + tail, partial, done);
    var at := |pre| + |s.gap| + |f.scopeStart|;
    ToolsReach(f, input, partial, |pre|, at, done, true, s.calls, tail);
    ScopeEndRead(f, input, partial, |pre|, at + |RenderCalls(f, s.calls)|, done + Finals(f, s.calls), s.calls == [], s.close, post);
  }

  // ----- While the text is arriving

  /** The calls shown when the rendering of `calls` breaks off after `r`. */
  function CallsView(f: Form, calls: seq<Call>, r: string): seq<ToolCall>
    decreases |calls|
  {
    if calls == [] then []
    else
      var n := |RenderCall(f, calls[0])|;
      if |r| < n then CallView(f, calls[0], r) else [FinalCall(f, calls[0])] + CallsView(f, calls[1..], r[n..])
  }

  function View(f: Form, s: Scope, r: string): seq<ToolCall> {
    var k := |s.gap| + |f.scopeStart|;
    if |r| < k then [] else CallsView(f, s.calls, r[k..])
  }

  /** How the parser ends behind the scope's opening tag: it waits for more, unless the closing tag has begun, and no tool may
      have; a scope without a closing tag is over wherever the next tool has not begun. */
  function CallsExit(f: Form, calls: seq<Call>, close: string, r: string): (e: Exit)
    ensures e in {Returned(true), ThrewPartial}
    decreases |calls|
  {
    if calls == [] then
      if |r| > |close| && !(r[|close|..] <= f.toolStart) then Returned(true) else ThrewPartial
    else
      var n := |RenderCall(f, calls[0])|;
      if n <= |r| then CallsExit(f, calls[1..], close, r[n..])
      else if f.scopeEnd == [] && |r| <= |calls[0].gap| then Returned(true)
      else ThrewPartial
  }

  /** How the parser ends when the rendering breaks off after `r`. */
  function ViewExit(f: Form, s: Scope, r: string): Exit {
    var k := |s.gap| + |f.scopeStart|;
    if k <= |r| then CallsExit(f, s.calls, s.close, r[k..])
    else if |r| <= |s.gap| then Returned(false)
    else ThrewPartial
  }

  predicate Shows(o: Out, exit: Exit, calls: seq<ToolCall>) {
    o.exit == exit && o.calls == calls
  }

  /** Nothing but white space is left. */
  lemma NoToolLeft(f: Form, input: string, start: nat, pos: nat, done: seq<ToolCall>, recovery: bool)
    requires SafeForm(f) && start <= pos <= |input| && AllSpace(input[pos..])
    ensures Shows(Tools(f, input, true, start, pos, done, recovery), if f.scopeEnd == [] then Returned(true) else ThrewPartial, done)
  {
    hide FindLiteral;
    BlankFindsNothing(input, pos, f.toolStart);
    if f.scopeEnd == [] {
      NothingFound(input, true, pos);
    } else {
      BlankFindsNothing(input, pos, f.scopeEnd);
      TagIsNotSpace(f.scopeEnd);
      SkipsToEnd(input, pos);
    }
  }

  lemma SkipsToEnd(input: string, pos: nat)
    requires pos <= |input| && AllSpace(input[pos..])
    ensures SkipSpaces(input, pos) == |input|
    decreases |input| - pos
  {
    if pos < |input| {
      assert input[pos] == input[pos..][0];
      assert input[pos + 1..] == input[pos..][1..];
      SkipsToEnd(input, pos + 1);
    }
  }

  lemma NoNameYet(f: Form, input: string)
    requires SafeForm(f)
    ensures NameMatch(f, input, true, |input|) == None
  {
    hide FindLiteral;
    SepIsSpace(f);
    BlankFindsNothing(input, |input|, NameEnder(f));
    BlankFindsNothing(input, |input|, f.toolEnd);
  }

  /** The text breaks off in the scope's closing tag, which may look like the beginning of a tool. */
  lemma ScopeEndCut(f: Form, input: string, start: nat, pos: nat, done: seq<ToolCall>, recovery: bool, gap: string)
    requires SafeForm(f) && AllSpace(gap) && start <= pos <= |input| && input[pos..] < gap + f.scopeEnd
    requires f.scopeEnd == [] ==> gap == []
    ensures Shows(Tools(f, input, true, start, pos, done, recovery), CallsExit(f, [], gap, input[pos..]), done)
  {
    hide FindLiteral, NameMatch, CloseTool, Arguments;
    var r := input[pos..];
    if |r| <= |gap| {
      assert r <= gap by { assert r == (gap + f.scopeEnd)[..|r|] == gap[..|r|]; }
      SpacePrefix(r, gap);
      NoToolLeft(f, input, start, pos, done, recovery);
    } else {
      SplitPrefix(r, gap, f.scopeEnd);
      var y := r[|gap|..];
      assert f.scopeEnd + [] == f.scopeEnd && done + [] == done;
      StartCut(input, pos, gap, f.scopeEnd, []);
      if f.toolStart <= y {
        PrefixTransitive(f.toolStart, y, f.scopeEnd);
      } else if y <= f.toolStart {
        ProperPrefix(y, f.toolStart);
        CutTagToo(input, pos, gap, y, f.toolStart);
        NoNameYet(f, input);
      } else {
        assert y[0] == f.scopeEnd[0];
        LiteralElsewhere(input, true, pos, gap, f.toolStart, y);
      }
    }
  }

  lemma ToolCut(f: Form, input: string, start: nat, pos: nat, done: seq<ToolCall>, recovery: bool, c: Call)
    requires SafeForm(f) && Streamable(f, c) && start <= pos <= |input| && input[pos..] < RenderCall(f, c)
    ensures Shows(Tools(f, input, true, start, pos, done, recovery),
                  if f.scopeEnd == [] && |input[pos..]| <= |c.gap| then Returned(true) else ThrewPartial,
                  done + CallView(f, c, input[pos..]))
  {
    hide OneTool, SafeItem, SafeName, NeedleClash, EndsEarly, IsTag, RenderItems, ArgsView;
    var r := input[pos..];
    if |r| <= |c.gap| {
      assert r <= c.gap by { assert r == RenderCall(f, c)[..|r|] == c.gap[..|r|]; }
      SpacePrefix(r, c.gap);
      NoToolLeft(f, input, start, pos, done, recovery);
      assert done + [] == done;
    } else {
      CallCut(f, input, pos, c);
    }
  }

  lemma FirstIsSafe(f: Form, calls: seq<Call>)
    requires SafeForm(f) && calls != [] && forall c <- calls :: Streamable(f, c)
    ensures Streamable(f, calls[0]) && SafeCall(f, calls[0]) && forall c <- calls[1..] :: Streamable(f, c)
  {
    hide SafeForm, SafeCall, NeedleClash, EndsEarly;
    assert calls[0] in calls;
  }

  lemma ViewOfMore(f: Form, calls: seq<Call>, close: string, r: string, done: seq<ToolCall>)
    requires calls != [] && |RenderCall(f, calls[0])| <= |r|
    ensures var more, n := done + [FinalCall(f, calls[0])], |RenderCall(f, calls[0])|;
            && done + CallsView(f, calls, r) == more + CallsView(f, calls[1..], r[n..])
            && CallsExit(f, calls, close, r) == CallsExit(f, calls[1..], close, r[n..])
  {
    hide RenderCall, FinalCall, CallView;
  }

  lemma {:induction false} ToolsCut(f: Form, input: string, start: nat, pos: nat, done: seq<ToolCall>, recovery: bool, calls: seq<Call>, gap: string)
    requires SafeForm(f) && (forall c <- calls :: Streamable(f, c)) && AllSpace(gap) && (f.scopeEnd == [] ==> gap == [])
    requires start <= pos <= |input| && input[pos..] < RenderCalls(f, calls) + (gap + f.scopeEnd)
    ensures Shows(Tools(f, input, true, start, pos, done, recovery), CallsExit(f, calls, gap, input[pos..]),
                  done + CallsView(f, calls, input[pos..]))
    decreases |calls|
  {
    hide SafeCall, SafeForm, Streamable, AllSpace, RenderCall, FinalCall, Tools, CallView;
    var r := input[pos..];
    if calls == [] {
      assert [] + (gap + f.scopeEnd) == gap + f.scopeEnd && done + [] == done;
      ScopeEndCut(f, input, start, pos, done, recovery, gap);
    } else {
      var c, rest := calls[0], calls[1..];
      FirstIsSafe(f, calls);
      var seg, tail := RenderCall(f, c), RenderCalls(f, rest) + (gap + f.scopeEnd);
      RenderCallsSplit(f, calls, gap + f.scopeEnd);
      if |r| < |seg| {
        ShorterPrefix(r, seg, tail);
        ToolCut(f, input, start, pos, done, recovery, c);
      } else {
        SplitPrefix(r, seg, tail);
        ToolsStep(f, input, true, start, pos, done, recovery, c, r[|seg|..]);
        ToolsCut(f, input, start, pos + |seg|, done + [FinalCall(f, c)], false, rest, gap);
        ViewOfMore(f, calls, gap, r, done);
      }
    }
  }

  /** The text breaks off before or in the scope's opening tag. */
  lemma ScopeStartCut(f: Form, pre: string, gap: string, rest: string, r: string, done: seq<ToolCall>)
    requires SafeForm(f) && AllSpace(gap) && r < gap + (f.scopeStart + rest) && |r| < |gap| + |f.scopeStart| && f.scopeStart != []
    ensures Shows(ParseXml(f, pre + r, true, |pre|, done), if |r| <= |gap| then Returned(false) else ThrewPartial, done)
  {
    hide FindLiteral, Tools;
    var input := pre + r;
    assert input[|pre|..] == r;
    TagIsNotSpace(f.scopeStart);
    if |r| <= |gap| {
      assert r <= gap by { assert r == (gap + (f.scopeStart + rest))[..|r|] == gap[..|r|]; }
      SpacePrefix(r, gap);
      BlankFindsNothing(input, |pre|, f.scopeStart);
    } else {
      StartCut(input, |pre|, gap, f.scopeStart, rest);
    }
  }

  /** Main result, partial parse: on every proper prefix of a rendering the parser shows exactly its view and ends as said,
      and try_consume_xml_tool_calls does not take it back. */
  lemma PartialParse(f: Form, pre: string, s: Scope, r: string, done: seq<ToolCall>)
    requires StreamableScope(f, s) && r < Render(f, s)
    ensures Shows(TryXml(f, pre + r, true, |pre|, done), ViewExit(f, s, r), done + View(f, s, r))
  {
    hide SafeCall, Streamable, Tools, FindLiteral, RenderCalls, CallsView, CallsExit, ParseXml, SafeForm, AllSpace;
    var k := |s.gap| + |f.scopeStart|;
    var body := RenderCalls(f, s.calls) + (s.close + f.scopeEnd);
    assert done + [] == done;
    if |r| < k {
      ScopeStartCut(f, pre, s.gap, body, r, done);
    } else {
      assert s.gap + (f.scopeStart + body) == s.gap + f.scopeStart + body;
      SplitPrefix(r, s.gap + f.scopeStart, body);
      assert pre + r == pre + (s.gap + (f.scopeStart + r[k..]));
      ScopeOpened(f, pre, s.gap, r[k..], true, done);
      ToolsCut(f, pre + r, |pre|, |pre| + k, done, true, s.calls, s.close);
    }
  }
}

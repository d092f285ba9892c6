/** The XML-style tool-call parser of chat-parser-xml-toolcall.cpp, for raw-string arguments
    (raw_argval set, last_val_end and last_tool_end not set). */
module XmlToolCall {
  import opened Text
  import opened ChatMessage
  import opened ChatParser
  import opened Utf8
  import opened JsonString

  datatype Form = Form(
    scopeStart: string, toolStart: string, toolSep: string, keyStart: string, keyValSep: string,
    valEnd: string, toolEnd: string, scopeEnd: string, keyValSep2: Option<string>, trim: bool)
  {
    /** The assertions at the head of parse_xml_tool_calls. */
    predicate Valid() {
      toolStart != [] && keyStart != [] && keyValSep != [] && valEnd != [] && toolEnd != []
    }
  }

  // ----- The argument object and its dump

  type Args = seq<(string, string)>

  function Pair(p: (string, string)): string {
    "\"" + Escape(p.0) + "\":\"" + Escape(p.1) + "\""
  }

  function Pairs(args: Args): string {
    if args == [] then []
    else if |args| == 1 then Pair(args[0])
    else Pairs(args[..|args| - 1]) + "," + Pair(args[|args| - 1])
  }

  function Dump(args: Args): string {
    "{" + Pairs(args) + "}"
  }

  /** The dump without its closing brace. */
  function DumpOpen(args: Args): string {
    "{" + Pairs(args)
  }

  /** arguments[key] = value: an existing key keeps its place. */
  function Put(args: Args, key: string, value: string): Args {
    if args == [] then [(key, value)]
    else if args[0].0 == key then [(key, value)] + args[1..]
    else [args[0]] + Put(args[1..], key, value)
  }

  const NEEDLE := "XML_TOOL_CALL_PARTIAL_FLAG"

  /** std::string::rfind. */
  function RFind(s: string, lit: string, at: nat): (r: Option<nat>)
    ensures r.Some? ==> r.value <= at && OccursAt(s, lit, r.value)
    ensures r.Some? ==> forall j: nat :: r.value < j <= at ==> !OccursAt(s, lit, j)
    ensures r.None? ==> forall j: nat :: j <= at ==> !OccursAt(s, lit, j)
  {
    if OccursAt(s, lit, at) then Some(at)
    else if at == 0 then None
    else RFind(s, lit, at - 1)
  }

  predicate IsJsonTail(s: string) {
    forall i :: 0 <= i < |s| ==> s[i] == '\'' || s[i] == '"' || s[i] == '}' || s[i] == ':' || IsSpace(s[i])
  }

  function DropQuote(s: string): string {
    if s != [] && s[|s| - 1] == '"' then s[..|s| - 1] else s
  }

  /** partial_json: drop everything from the needle on, if only closing characters follow it. */
  function PartialJson(s: string): Option<string> {
    match RFind(s, NEEDLE, |s|)
    case None => None
    case Some(i) => if IsJsonTail(s[i + |NEEDLE|..]) then Some(DropQuote(s[..i])) else None
  }

  /** add_tool_call: a call without a name is not added. */
  function Named(name: string, arguments: string): seq<ToolCall> {
    if name == [] then [] else [ToolCall(name, arguments, [])]
  }

  /** gen_partial_json: the call with its arguments cut at the needle. */
  function PartialCall(name: string, args: Args): seq<ToolCall> {
    match PartialJson(Dump(args))
    case None => []
    case Some(t) => Named(name, t)
  }

  function Truncated(s: string): string {
    s[..TruncateSafe(s)]
  }

  function Trimmed(f: Form, s: string): string {
    if f.trim then Strip(s) else s
  }

  // ----- One argument

  /** One turn of the key loop: no further key, a complete pair, a cut-off pair (the calls are added and a partial
      exception is thrown), or a syntax error. */
  datatype ArgTurn = NoKey | NextPair(pos: nat, args: Args) | CutOff(calls: seq<ToolCall>) | Broken

  predicate IsWhole(m: Match, literal: string) {
    m.end - m.begin == |literal|
  }

  function ValueTurn(f: Form, input: string, partial: bool, pos: nat, name: string, args: Args, key: string): (t: ArgTurn)
    requires pos <= |input|
    ensures t.NextPair? ==> pos <= t.pos <= |input|
  {
    match FindLiteral(input, partial, pos, f.valEnd)
    case Some(v) =>
      var value := Trimmed(f, v.prelude);
      if !IsWhole(v, f.valEnd) then CutOff(PartialCall(name, Put(args, key, value + NEEDLE)))
      else NextPair(v.end, Put(args, key, value))
    case None => CutOff(PartialCall(name, Put(args, key, Trimmed(f, Truncated(input[pos..])) + NEEDLE)))
  }

  function SecondSepTurn(f: Form, input: string, partial: bool, pos: nat, name: string, args: Args, key: string): (t: ArgTurn)
    requires pos <= |input|
    ensures t.NextPair? ==> pos <= t.pos <= |input|
  {
    match f.keyValSep2
    case None => ValueTurn(f, input, partial, pos, name, args, key)
    case Some(sep2) =>
      match FindLiteral(input, partial, pos, sep2)
      case Some(m) =>
        if !AllSpace(m.prelude) then Broken
        else if !IsWhole(m, sep2) then CutOff(PartialCall(name, Put(args, key, NEEDLE)))
        else ValueTurn(f, input, partial, m.end, name, args, key)
      case None => CutOff(PartialCall(name, Put(args, key, NEEDLE)))
  }

  function KeyTurn(f: Form, input: string, partial: bool, pos: nat, name: string, args: Args): (t: ArgTurn)
    requires pos <= |input|
    ensures t.NextPair? ==> pos <= t.pos <= |input|
  {
    match FindLiteral(input, partial, pos, f.keyValSep)
    case None => CutOff(PartialCall(name, Put(args, Truncated(input[pos..]) + NEEDLE, [])))
    case Some(k) =>
      if !IsWhole(k, f.keyValSep) then CutOff(PartialCall(name, Put(args, k.prelude + NEEDLE, [])))
      else SecondSepTurn(f, input, partial, k.end, name, args, k.prelude)
  }

  function OneArg(f: Form, input: string, partial: bool, pos: nat, name: string, args: Args): (t: ArgTurn)
    requires f.Valid() && pos <= |input|
    ensures t.NextPair? ==> pos < t.pos <= |input|
  {
    match FindLiteral(input, partial, pos, f.keyStart)
    case None => NoKey
    case Some(m) =>
      if !AllSpace(m.prelude) then NoKey
      else if !IsWhole(m, f.keyStart) then CutOff(Named(name, DumpOpen(args)))
      else KeyTurn(f, input, partial, m.end, name, args)
  }

  // ----- All arguments of a tool

  datatype ArgsOut = Complete(pos: nat, args: Args, sawKey: bool) | Halted(calls: seq<ToolCall>) | Failed

  function Arguments(f: Form, input: string, partial: bool, pos: nat, name: string, args: Args, sawKey: bool): (r: ArgsOut)
    requires f.Valid() && pos <= |input|
    ensures r.Complete? ==> pos <= r.pos <= |input|
    decreases |input| - pos
  {
    match OneArg(f, input, partial, pos, name, args)
    case NoKey => Complete(pos, args, sawKey)
    case NextPair(next, more) => Arguments(f, input, partial, next, name, more, true)
    case CutOff(calls) => Halted(calls)
    case Broken => Failed
  }

  // ----- One tool

  /** One turn of the tool loop. */
  datatype ToolTurn =
    | NoTool
    | Added(pos: nat, call: ToolCall)
    | Unfinished(calls: seq<ToolCall>)   // add the calls, then throw the partial exception
    | Rejected(sawKey: bool)             // return_error
    | SyntaxError

  /** Behind the arguments: the closing tag. */
  function CloseTool(f: Form, input: string, partial: bool, name: string, out: ArgsOut): (t: ToolTurn)
    requires out.Complete? ==> out.pos <= |input|
    ensures t.Added? ==> out.Complete? && out.pos <= t.pos <= |input|
  {
    match out
    case Halted(calls) => Unfinished(calls)
    case Failed => SyntaxError
    case Complete(pos, args, sawKey) =>
      match FindLiteral(input, partial, pos, f.toolEnd)
      case Some(m) =>
        if !AllSpace(m.prelude) then Rejected(sawKey)
        else if IsWhole(m, f.toolEnd) then
          if name == [] then Unfinished([]) else Added(m.end, ToolCall(name, Dump(args), []))
        else Unfinished(Named(name, DumpOpen(args)))
      case None => Unfinished(Named(name, DumpOpen(args)))
  }

  /** What ends the tool name, searched from behind the tool's opening tag. */
  function NameMatch(f: Form, input: string, partial: bool, start: nat): (m: Option<Match>)
    requires start <= |input|
    ensures m.Some? ==> start <= m.value.begin <= m.value.end <= |input|
  {
    var first := FindLiteral(input, partial, start, if AllSpace(f.toolSep) then f.keyStart else f.toolSep);
    var found := if first.None? then FindLiteral(input, partial, start, f.toolEnd) else first;
    if found.Some? && Contains(found.value.prelude, f.toolEnd) then FindLiteral(input, partial, start, f.toolEnd)
    else found
  }

  function OneTool(f: Form, input: string, partial: bool, pos: nat): (t: ToolTurn)
    requires f.Valid() && pos <= |input|
    ensures t.Added? ==> pos < t.pos <= |input|
  {
    match FindLiteral(input, partial, pos, f.toolStart)
    case None => NoTool
    case Some(m) =>
      if !AllSpace(m.prelude) then NoTool
      else
        match NameMatch(f, input, partial, m.end)
        case None => Unfinished([])
        case Some(n) =>
          var name := Strip(n.prelude);
          var from := if AllSpace(f.toolSep) then n.begin else n.end;
          CloseTool(f, input, partial, name, Arguments(f, input, partial, from, name, [], false))
  }

  // ----- The whole

  datatype Exit = Returned(ok: bool) | ThrewPartial | ThrewSyntax

  datatype Out = Out(exit: Exit, pos: nat, calls: seq<ToolCall>)

  /** return_error. */
  function ReturnError(start: nat, pos: nat, calls: seq<ToolCall>, recovery: bool): Out {
    if recovery then Out(Returned(false), start, calls) else Out(ThrewSyntax, pos, calls)
  }

  function ScopeEnd(f: Form, input: string, partial: bool, start: nat, pos: nat, calls: seq<ToolCall>, recovery: bool): (r: Out)
    requires start <= pos <= |input|
    ensures r.pos <= |input|
  {
    match FindLiteral(input, partial, pos, f.scopeEnd)
    case Some(m) =>
      if !AllSpace(m.prelude) then ReturnError(start, pos, calls, recovery) else Out(Returned(true), m.end, calls)
    case None =>
      if AllSpace(f.scopeEnd) then Out(Returned(true), pos, calls)
      else if SkipSpaces(input, pos) == |input| then Out(ThrewPartial, |input|, calls)
      else ReturnError(start, pos, calls, recovery)
  }

  function Tools(f: Form, input: string, partial: bool, start: nat, pos: nat, calls: seq<ToolCall>, recovery: bool): (r: Out)
    requires f.Valid() && start <= pos <= |input|
    ensures r.pos <= |input|
    decreases |input| - pos
  {
    match OneTool(f, input, partial, pos)
    case NoTool => ScopeEnd(f, input, partial, start, pos, calls, recovery)
    case Added(next, call) => Tools(f, input, partial, start, next, calls + [call], false)
    case Unfinished(more) => Out(ThrewPartial, pos, calls + more)
    case Rejected(sawKey) => ReturnError(start, pos, calls, recovery && !sawKey)
    case SyntaxError => Out(ThrewSyntax, pos, calls)
  }

  /** parse_xml_tool_calls. */
  function ParseXml(f: Form, input: string, partial: bool, pos: nat, calls: seq<ToolCall>): (r: Out)
    requires f.Valid() && pos <= |input|
    ensures r.pos <= |input|
  {
    if AllSpace(f.scopeStart) then Tools(f, input, partial, pos, pos, calls, true)
    else
      match FindLiteral(input, partial, pos, f.scopeStart)
      case None => Out(Returned(false), pos, calls)
      case Some(m) =>
        if !AllSpace(m.prelude) then Out(Returned(false), pos, calls)
        else if !IsWhole(m, f.scopeStart) then Out(ThrewPartial, pos, calls)
        else Tools(f, input, partial, pos, m.end, calls, true)
  }

  /** try_consume_xml_tool_calls: a syntax exception is caught and everything is put back. */
  function TryXml(f: Form, input: string, partial: bool, pos: nat, calls: seq<ToolCall>): (r: Out)
    requires f.Valid() && pos <= |input|
  {
    var r := ParseXml(f, input, partial, pos, calls);
    if r.exit == ThrewSyntax then Out(Returned(false), pos, calls) else r
  }

  // ----- Rollback

  lemma {:induction false} ToolsRollBack(f: Form, input: string, partial: bool, start: nat, pos: nat, calls: seq<ToolCall>, recovery: bool)
    requires f.Valid() && start <= pos <= |input|
    ensures var r := Tools(f, input, partial, start, pos, calls, recovery);
            && calls <= r.calls
            && (r.exit == Returned(false) ==> recovery && r.pos == start && r.calls == calls)
    decreases |input| - pos
  {
    hide OneTool, FindLiteral;
    match OneTool(f, input, partial, pos)
    case Added(next, call) => ToolsRollBack(f, input, partial, start, next, calls + [call], false);
    case _ =>
  }

  /** Transactional: whenever the parser answers false, the cursor and the tool calls are as they were; and no answer
      or exception ever takes away calls that were there before. */
  lemma FalseMeansUntouched(f: Form, input: string, partial: bool, pos: nat, calls: seq<ToolCall>)
    requires f.Valid() && pos <= |input|
    ensures calls <= ParseXml(f, input, partial, pos, calls).calls
    ensures var r := TryXml(f, input, partial, pos, calls);
            && r.exit != ThrewSyntax
            && calls <= r.calls
            && (r.exit == Returned(false) ==> r.pos == pos && r.calls == calls)
  {
    hide Tools, FindLiteral;
    var m := FindLiteral(input, partial, pos, f.scopeStart);
    ToolsRollBack(f, input, partial, pos, pos, calls, true);
    if m.Some? {
      ToolsRollBack(f, input, partial, pos, m.value.end, calls, true);
    }
  }

  /** `end` is right behind the literal or, while more may come, at the end of a text that breaks off in it. */
  predicate EndsIn(lit: string, input: string, partial: bool, end: nat) {
    exists k :: 0 < k <= |lit| && k <= end <= |input| && input[end - k..end] == lit[..k] && (k == |lit| || (partial && end == |input|))
  }

  lemma MatchEndsIn(input: string, partial: bool, pos: nat, lit: string)
    requires pos <= |input| && lit != []
    ensures var m := FindLiteral(input, partial, pos, lit); m.Some? ==> EndsIn(lit, input, partial, m.value.end)
  {
    hide Find;
    FindFirst(input, lit, pos);
    PartialStopLeast(input, lit, 0);
    var m := FindLiteral(input, partial, pos, lit);
    if m.Some? {
      var b, e := m.value.begin, m.value.end;
      if Find(input, lit, pos).None? {
        assert HoldsAt(input, lit, b) && e == |input|;
        assert input[b..] == lit[..|input| - b];
      } else {
        assert input[b..e] == lit == lit[..e - b];
      }
      assert e - (e - b) == b;
    }
  }

  lemma {:induction false} ToolsEndIn(f: Form, input: string, partial: bool, start: nat, pos: nat, calls: seq<ToolCall>, recovery: bool)
    requires f.Valid() && !AllSpace(f.scopeEnd) && start <= pos <= |input|
    ensures var r := Tools(f, input, partial, start, pos, calls, recovery);
            r.exit == Returned(true) ==> EndsIn(f.scopeEnd, input, partial, r.pos)
    decreases |input| - pos
  {
    hide OneTool, FindLiteral, EndsIn;
    match OneTool(f, input, partial, pos)
    case Added(next, call) => ToolsEndIn(f, input, partial, start, next, calls + [call], false);
    case _ => MatchEndsIn(input, partial, pos, f.scopeEnd);
  }

  /** The parser answers true only behind the scope's closing tag, whole or, while more may come, cut off by the end. */
  lemma TrueMeansClosed(f: Form, input: string, partial: bool, pos: nat, calls: seq<ToolCall>)
    requires f.Valid() && !AllSpace(f.scopeEnd) && pos <= |input|
    ensures var r := TryXml(f, input, partial, pos, calls);
            r.exit == Returned(true) ==> EndsIn(f.scopeEnd, input, partial, r.pos)
  {
    hide Tools, FindLiteral, EndsIn;
    var m := FindLiteral(input, partial, pos, f.scopeStart);
    ToolsEndIn(f, input, partial, pos, pos, calls, true);
    if m.Some? {
      ToolsEndIn(f, input, partial, pos, m.value.end, calls, true);
    }
  }

  // ----- The parser as the source runs it: a shared cursor, nested loops and exceptions

  /** consume_rest, cut to whole characters. */
  method RestTruncated(p: MsgParser) returns (rest: string)
    requires p.Valid()
    modifies p`pos
    ensures p.Valid() && rest == Truncated(p.input[old(p.pos)..])
  {
    rest := p.ConsumeRest();
    var n := Utf8TruncateSafe(rest);
    rest := rest[..n];
  }

  /** gen_partial_json, once the partial argument is set. */
  method AddPartialCall(p: MsgParser, name: string, args: Args)
    modifies p`result
    ensures p.result == old(p.result).(toolCalls := old(p.result).toolCalls + PartialCall(name, args))
  {
    var text := PartialJson(Dump(args));
    if text.Some? {
      var _ := p.AddToolCall(name, [], text.value);
    }
    assert old(p.result).toolCalls + [] == old(p.result).toolCalls;
  }

  /** The end of one turn of the key loop as the method reports it. */
  datatype Signal = GoOn | Leave | ThrowPartial | ThrowSyntax

  ghost predicate TurnIs(t: ArgTurn, signal: Signal, pos: nat, args: Args, before: seq<ToolCall>, after: seq<ToolCall>) {
    match t
    case NoKey => signal == Leave && after == before
    case NextPair(next, more) => signal == GoOn && pos == next && args == more && after == before
    case CutOff(calls) => signal == ThrowPartial && after == before + calls
    case Broken => signal == ThrowSyntax && after == before
  }

  method ReadValue(p: MsgParser, f: Form, name: string, args: Args, key: string) returns (signal: Signal, args': Args)
    requires p.Valid()
    modifies p`pos, p`result
    ensures p.Valid() && p.result == old(p.result).(toolCalls := p.result.toolCalls)
    ensures TurnIs(ValueTurn(f, p.input, p.partial, old(p.pos), name, args, key), signal, p.pos, args',
                   old(p.result).toolCalls, p.result.toolCalls)
  {
    args' := args;
    var v := p.TryFindLiteral(f.valEnd);
    if v.Some? {
      var value := v.value.prelude;
      if f.trim {
        value := StringStrip(value);
      }
      if v.value.end - v.value.begin != |f.valEnd| {
        AddPartialCall(p, name, Put(args, key, value + NEEDLE));
        return ThrowPartial, args';
      }
      args' := Put(args, key, value);
      return GoOn, args';
    }
    var rest := RestTruncated(p);
    if f.trim {
      rest := StringStrip(rest);
    }
    AddPartialCall(p, name, Put(args, key, rest + NEEDLE));
    return ThrowPartial, args';
  }

  method ReadSecondSep(p: MsgParser, f: Form, name: string, args: Args, key: string) returns (signal: Signal, args': Args)
    requires p.Valid()
    modifies p`pos, p`result
    ensures p.Valid() && p.result == old(p.result).(toolCalls := p.result.toolCalls)
    ensures TurnIs(SecondSepTurn(f, p.input, p.partial, old(p.pos), name, args, key), signal, p.pos, args',
                   old(p.result).toolCalls, p.result.toolCalls)
  {
    args' := args;
    if f.keyValSep2.Some? {
      var m := p.TryFindLiteral(f.keyValSep2.value);
      if m.Some? {
        if !AllSpace(m.value.prelude) {
          return ThrowSyntax, args';
        }
        if m.value.end - m.value.begin != |f.keyValSep2.value| {
          AddPartialCall(p, name, Put(args, key, NEEDLE));
          return ThrowPartial, args';
        }
      } else {
        AddPartialCall(p, name, Put(args, key, NEEDLE));
        return ThrowPartial, args';
      }
    }
    signal, args' := ReadValue(p, f, name, args, key);
  }

  method ReadKey(p: MsgParser, f: Form, name: string, args: Args) returns (signal: Signal, args': Args)
    requires p.Valid()
    modifies p`pos, p`result
    ensures p.Valid() && p.result == old(p.result).(toolCalls := p.result.toolCalls)
    ensures TurnIs(KeyTurn(f, p.input, p.partial, old(p.pos), name, args), signal, p.pos, args',
                   old(p.result).toolCalls, p.result.toolCalls)
  {
    args' := args;
    var k := p.TryFindLiteral(f.keyValSep);
    if k.None? {
      var rest := RestTruncated(p);
      AddPartialCall(p, name, Put(args, rest + NEEDLE, []));
      return ThrowPartial, args';
    }
    if k.value.end - k.value.begin != |f.keyValSep| {
      AddPartialCall(p, name, Put(args, k.value.prelude + NEEDLE, []));
      return ThrowPartial, args';
    }
    signal, args' := ReadSecondSep(p, f, name, args, k.value.prelude);
  }

  method ReadArgument(p: MsgParser, f: Form, name: string, args: Args) returns (signal: Signal, args': Args)
    requires f.Valid() && p.Valid()
    modifies p`pos, p`result
    ensures p.Valid() && p.result == old(p.result).(toolCalls := p.result.toolCalls)
    ensures TurnIs(OneArg(f, p.input, p.partial, old(p.pos), name, args), signal, p.pos, args',
                   old(p.result).toolCalls, p.result.toolCalls)
    ensures signal == Leave ==> p.pos == old(p.pos) && args' == args
  {
    hide FindLiteral, AllSpace;
    args' := args;
    var m := p.TryFindLiteral(f.keyStart);
    if m.None? {
      return Leave, args';
    }
    if !AllSpace(m.value.prelude) {
      var _ := p.MoveTo(m.value.begin - |m.value.prelude|);
      return Leave, args';
    }
    if m.value.end - m.value.begin != |f.keyStart| {
      var _ := p.AddToolCall(name, [], DumpOpen(args));
      assert old(p.result).toolCalls + [] == old(p.result).toolCalls;
      return ThrowPartial, args';
    }
    signal, args' := ReadKey(p, f, name, args);
  }

  ghost predicate ArgsAre(r: ArgsOut, signal: Signal, pos: nat, args: Args, sawKey: bool, before: seq<ToolCall>, after: seq<ToolCall>) {
    match r
    case Complete(end, all, saw) => signal == Leave && pos == end && args == all && sawKey == saw && after == before
    case Halted(calls) => signal == ThrowPartial && after == before + calls
    case Failed => signal == ThrowSyntax && after == before
  }

  /** The key loop of one tool. */
  method ReadArguments(p: MsgParser, f: Form, name: string) returns (signal: Signal, args: Args, sawKey: bool)
    requires f.Valid() && p.Valid()
    modifies p`pos, p`result
    ensures p.Valid() && p.result == old(p.result).(toolCalls := p.result.toolCalls)
    ensures ArgsAre(Arguments(f, p.input, p.partial, old(p.pos), name, [], false), signal, p.pos, args, sawKey,
                    old(p.result).toolCalls, p.result.toolCalls)
  {
    args, sawKey, signal := [], false, GoOn;
    ghost var whole := Arguments(f, p.input, p.partial, p.pos, name, [], false);
    while signal == GoOn
      invariant p.Valid() && p.result == old(p.result).(toolCalls := p.result.toolCalls)
      invariant signal == GoOn ==>
                  && Arguments(f, p.input, p.partial, p.pos, name, args, sawKey) == whole
                  && p.result.toolCalls == old(p.result).toolCalls
      invariant signal != GoOn ==>
                  ArgsAre(whole, signal, p.pos, args, sawKey, old(p.result).toolCalls, p.result.toolCalls)
      decreases if signal == GoOn then 1 + |p.input| - p.pos else 0
    {
      signal, args := ReadArgument(p, f, name, args);
      if signal == GoOn {
        sawKey := true;
      }
    }
  }

  /** Finds the end of the tool's name. */
  method ReadName(p: MsgParser, f: Form) returns (m: Option<Match>)
    requires p.Valid()
    modifies p`pos
    ensures p.Valid() && m == NameMatch(f, p.input, p.partial, old(p.pos))
    ensures m.Some? ==> p.pos == m.value.end
  {
    hide FindLiteral, Contains, Find;
    m := p.TryFindLiteral(if AllSpace(f.toolSep) then f.keyStart else f.toolSep);
    if m.None? {
      m := p.TryFindLiteral(f.toolEnd);
    }
    if m.Some? {
      ContainsIsFind(m.value.prelude, f.toolEnd);
    }
    if m.Some? && Find(m.value.prelude, f.toolEnd, 0).Some? {
      var _ := p.MoveTo(m.value.begin - |m.value.prelude|);
      m := p.TryFindLiteral(f.toolEnd);
    }
  }

  lemma ContainsIsFind(s: string, lit: string)
    ensures Contains(s, lit) <==> Find(s, lit, 0).Some?
  {
    FindFirst(s, lit, 0);
  }

  ghost predicate ToolIs(t: ToolTurn, signal: Signal, sawKey: bool, pos: nat, start: nat, before: seq<ToolCall>, after: seq<ToolCall>) {
    match t
    case NoTool => signal == Leave && pos == start && after == before
    case Added(next, call) => signal == GoOn && pos == next && after == before + [call]
    case Unfinished(calls) => signal == ThrowPartial && after == before + calls
    case Rejected(saw) => signal == ThrowSyntax && sawKey == saw && after == before
    case SyntaxError => signal == ThrowSyntax && sawKey && after == before
  }

  /** The closing tag of a tool. */
  method ReadClosing(p: MsgParser, f: Form, name: string, args: Args, sawKey: bool) returns (signal: Signal)
    requires f.Valid() && p.Valid()
    modifies p`pos, p`result
    ensures p.Valid() && p.result == old(p.result).(toolCalls := p.result.toolCalls)
    ensures var t := CloseTool(f, p.input, p.partial, name, Complete(old(p.pos), args, sawKey));
            !t.NoTool? && ToolIs(t, signal, sawKey, p.pos, old(p.pos), old(p.result).toolCalls, p.result.toolCalls)
  {
    hide FindLiteral, Dump, DumpOpen;
    ghost var none := old(p.result).toolCalls + [];
    assert none == old(p.result).toolCalls;
    var e := p.TryFindLiteral(f.toolEnd);
    if e.Some? {
      if !AllSpace(e.value.prelude) {
        return ThrowSyntax;
      }
      if e.value.end - e.value.begin == |f.toolEnd| {
        var ok := p.AddToolCall(name, [], Dump(args));
        if !ok {
          return ThrowPartial;
        }
        return GoOn;
      }
    }
    var _ := p.AddToolCall(name, [], DumpOpen(args));
    return ThrowPartial;
  }

  /** One turn of the tool loop. ThrowSyntax stands for return_error, to be taken back if no key was seen. */
  method ReadTool(p: MsgParser, f: Form) returns (signal: Signal, sawKey: bool)
    requires f.Valid() && p.Valid()
    modifies p`pos, p`result
    ensures p.Valid() && p.result == old(p.result).(toolCalls := p.result.toolCalls)
    ensures ToolIs(OneTool(f, p.input, p.partial, old(p.pos)), signal, sawKey, p.pos, old(p.pos),
                   old(p.result).toolCalls, p.result.toolCalls)
  {
    hide Arguments, FindLiteral, NameMatch, Strip, AllSpace;
    sawKey := false;
    ghost var none := old(p.result).toolCalls + [];
    assert none == old(p.result).toolCalls;
    var m := p.TryFindLiteral(f.toolStart);
    if m.None? {
      return Leave, sawKey;
    }
    if !AllSpace(m.value.prelude) {
      var _ := p.MoveTo(m.value.begin - |m.value.prelude|);
      return Leave, sawKey;
    }
    var n := ReadName(p, f);
    if n.None? {
      return ThrowPartial, sawKey;
    }
    var _ := p.MoveTo(if AllSpace(f.toolSep) then n.value.begin else n.value.end);
    var name := StringStrip(n.value.prelude);
    var args;
    signal, args, sawKey := ReadArguments(p, f, name);
    if signal == ThrowPartial {
      return;
    }
    if signal == ThrowSyntax {
      sawKey := true;
      return;
    }
    signal := ReadClosing(p, f, name, args, sawKey);
  }

  ghost predicate OutIs(r: Out, exit: Exit, pos: nat, calls: seq<ToolCall>) {
    && exit == r.exit
    && calls == r.calls
    && (exit.Returned? ==> pos == r.pos)
  }

  method ReadScopeEnd(p: MsgParser, f: Form, start: nat, recovery: bool) returns (exit: Exit)
    requires p.Valid() && start <= p.pos
    modifies p`pos
    ensures p.Valid()
    ensures OutIs(ScopeEnd(f, p.input, p.partial, start, old(p.pos), p.result.toolCalls, recovery), exit, p.pos, p.result.toolCalls)
  {
    var m := p.TryFindLiteral(f.scopeEnd);
    if m.Some? {
      if AllSpace(m.value.prelude) { return Returned(true); }
    } else {
      if AllSpace(f.scopeEnd) { return Returned(true); }
      var _ := p.ConsumeSpaces();
      if p.pos == |p.input| { return ThrewPartial; }
    }
    if recovery {
      var _ := p.MoveTo(start);
      return Returned(false);
    }
    return ThrewSyntax;
  }

  /** parse_xml_tool_calls: the tool loop. */
  method ReadTools(p: MsgParser, f: Form, start: nat) returns (exit: Exit)
    requires f.Valid() && p.Valid() && start <= p.pos
    modifies p`pos, p`result
    ensures p.Valid() && p.result == old(p.result).(toolCalls := p.result.toolCalls)
    ensures OutIs(Tools(f, p.input, p.partial, start, old(p.pos), old(p.result).toolCalls, true), exit, p.pos, p.result.toolCalls)
  {
    hide OneTool, FindLiteral, AllSpace;
    var recovery := true;
    ghost var whole := Tools(f, p.input, p.partial, start, p.pos, p.result.toolCalls, true);
    while true
      invariant p.Valid() && start <= p.pos && p.result == old(p.result).(toolCalls := p.result.toolCalls)
      invariant Tools(f, p.input, p.partial, start, p.pos, p.result.toolCalls, recovery) == whole
      decreases |p.input| - p.pos
    {
      var signal, sawKey := ReadTool(p, f);
      match signal
      case Leave =>
        exit := ReadScopeEnd(p, f, start, recovery);
        return;
      case ThrowPartial => return ThrewPartial;
      case ThrowSyntax =>
        if recovery && !sawKey {
          var _ := p.MoveTo(start);
          return Returned(false);
        }
        return ThrewSyntax;
      case GoOn =>
        recovery := false;
    }
  }

  method ParseXmlToolCalls(p: MsgParser, f: Form) returns (exit: Exit)
    requires f.Valid() && p.Valid()
    modifies p`pos, p`result
    ensures p.Valid() && p.result == old(p.result).(toolCalls := p.result.toolCalls)
    ensures OutIs(ParseXml(f, p.input, p.partial, old(p.pos), old(p.result).toolCalls), exit, p.pos, p.result.toolCalls)
  {
    var start := p.pos;
    if !AllSpace(f.scopeStart) {
      var m := p.TryFindLiteral(f.scopeStart);
      if m.None? { return Returned(false); }
      if !AllSpace(m.value.prelude) {
        var _ := p.MoveTo(start);
        return Returned(false);
      }
      if |f.scopeStart| != m.value.end - m.value.begin { return ThrewPartial; }
    }
    exit := ReadTools(p, f, start);
  }

  /** try_consume_xml_tool_calls. */
  method TryConsumeXmlToolCalls(p: MsgParser, f: Form) returns (exit: Exit)
    requires f.Valid() && p.Valid()
    modifies p`pos, p`result
    ensures p.Valid() && p.result == old(p.result).(toolCalls := p.result.toolCalls)
    ensures OutIs(TryXml(f, p.input, p.partial, old(p.pos), old(p.result).toolCalls), exit, p.pos, p.result.toolCalls)
    ensures exit == Returned(false) ==> p.pos == old(p.pos) && p.result == old(p.result)
  {
    FalseMeansUntouched(f, p.input, p.partial, p.pos, p.result.toolCalls);
    var pos, count := p.pos, |p.result.toolCalls|;
    exit := ParseXmlToolCalls(p, f);
    if exit == ThrewSyntax {
      var _ := p.MoveTo(pos);
      p.result := p.result.(toolCalls := p.result.toolCalls[..count]);
      return Returned(false);
    }
  }
}

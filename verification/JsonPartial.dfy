/** Healing of truncated JSON (json-partial.cpp): the open containers are closed from the SAX stack, and a marker is
    put where the text broke off. */
module JsonPartial {
  import opened Text
  import opened JsonText

  // ----- What the code computes

  /** What one stack element adds. */
  function Closer(e: Elem): string {
    match e case Object => "}" case Array => "]" case Key => []
  }

  /** The closers of the stack, innermost first; keys close nothing. */
  function Closing(stack: seq<Elem>): string {
    if stack == [] then []
    else
      Closer(stack[|stack| - 1]) + Closing(stack[..|stack| - 1])
  }

  /** find_last_not_of(" \n\r\t"), as the character found. */
  function LastNonSp(s: string): Option<char> {
    if s == [] then None
    else if IsWs(s[|s| - 1]) then LastNonSp(s[..|s| - 1])
    else Some(s[|s| - 1])
  }

  /** find_last_of: the last ':' or, in an array, the last '[' or ','. */
  predicate IsSeparator(c: char, inArray: bool) {
    if inArray then c == '[' || c == ',' else c == ':'
  }

  function LastSeparator(s: string, inArray: bool): (r: Option<nat>)
    ensures r.Some? ==> r.value < |s|
  {
    if s == [] then None
    else if IsSeparator(s[|s| - 1], inArray) then Some(|s| - 1)
    else LastSeparator(s[..|s| - 1], inArray)
  }

  /** A match of the pattern for a possibly cut-off unicode escape. */
  predicate IsUnicodeTail(t: string) {
    2 <= |t| <= 6 && t[0] == '\\' && t[1] == 'u' && AllHex(t[2..])
  }

  /** The length of the leftmost match that ends the text, at most `n`; 0 if there is none. */
  function TailLength(s: string, n: nat): (r: nat)
    ensures r <= |s| && r <= n
  {
    if n < 2 then 0
    else if n <= |s| && IsUnicodeTail(s[|s| - n..]) then n
    else TailLength(s, n - 1)
  }

  predicate IsHighSurrogate(t: string) {
    |t| >= 4 && t[0] == '\\' && t[1] == 'u' && HighDigits(t[2], t[3])
  }

  /** The text ends like a high-surrogate escape, or like the first digits of one. */
  predicate LooksHigh(s: string) {
    var n := TailLength(s, 6);
    n > 0 && IsHighSurrogate(s[|s| - n..])
  }

  function Zeros(n: nat): string {
    seq(n, _ => '0')
  }

  /** unicode_marker_padding. */
  function UnicodePadding(s: string): string {
    var n := TailLength(s, 6);
    if n == 0 then "udc00"
    else if IsHighSurrogate(s[|s| - n..]) then Zeros(6 - n) + "\\udc00"
    else if LooksHigh(s[..|s| - n]) && n == 2 then "dc00"
    else if LooksHigh(s[..|s| - n]) && n == 3 then "c00"
    else Zeros(6 - n)
  }

  /** The text ends in a character that may belong to an unfinished number. */
  predicate MaybeNumber(s: string) {
    s != [] && !IsSpace(s[|s| - 1]) &&
    var c := LastNonSp(s);
    c.Some? && (IsDigit(c.value) || c.value == '.' || IsE(c.value) || c.value == '-')
  }

  predicate EndsInBackslash(s: string) {
    s != [] && s[|s| - 1] == '\\'
  }

  /** The healed text and the fragment at which its dump can be cut again. */
  datatype Healed = Healed(text: string, dumpMarker: string)

  const QUOTE := "\""
  const KEY_END := "\": 1"

  /** `s` + the dump marker + what ends the value. */
  function Join(s: string, dumpMarker: string, end: string): Healed {
    Healed(s + dumpMarker + end, dumpMarker)
  }

  /** The last resort: cut back to the separator before the value and put the marker there. */
  function CutBack(s: string, inArray: bool, closing: string, marker: string): Option<Healed> {
    match LastSeparator(s, inArray)
    case None => None
    case Some(i) => Some(Join(s[..i + 1], QUOTE + marker, QUOTE + closing))
  }

  function HealKey(s: string, last: char, closing: string, marker: string): Option<Healed> {
    if last == ':' && Accepts(s + "1" + closing) then Some(Join(s, QUOTE + marker, QUOTE + closing))
    else if Accepts(s + ": 1" + closing) then Some(Join(s, ":\"" + marker, QUOTE + closing))
    else if last == '{' && Accepts(s + closing) then Some(Join(s, QUOTE + marker, KEY_END + closing))
    else if Accepts(s + QUOTE + closing) then Some(Join(s, marker, QUOTE + closing))
    else if EndsInBackslash(s) && Accepts(s + "\\\"" + closing) then Some(Join(s, "\\" + marker, QUOTE + closing))
    else if Accepts(s + UnicodePadding(s) + QUOTE + closing) then
      Some(Join(s, UnicodePadding(s) + marker, QUOTE + closing))
    else CutBack(s, false, closing, marker)
  }

  function HealArray(s: string, last: char, closing: string, marker: string): Option<Healed> {
    if (last == ',' || last == '[') && Accepts(s + "1" + closing) then Some(Join(s, QUOTE + marker, QUOTE + closing))
    else if Accepts(s + QUOTE + closing) then Some(Join(s, marker, QUOTE + closing))
    else if EndsInBackslash(s) && Accepts(s + "\\\"" + closing) then Some(Join(s, "\\" + marker, QUOTE + closing))
    else if Accepts(s + UnicodePadding(s) + QUOTE + closing) then
      Some(Join(s, UnicodePadding(s) + marker, QUOTE + closing))
    else if !MaybeNumber(s) && Accepts(s + ", 1" + closing) then Some(Join(s, ",\"" + marker, QUOTE + closing))
    else CutBack(s, true, closing, marker)
  }

  function HealObject(s: string, last: char, closing: string, marker: string): Option<Healed> {
    if (last == '{' && Accepts(s + closing)) || (last == ',' && Accepts(s + "\"\": 1" + closing)) then
      Some(Join(s, QUOTE + marker, KEY_END + closing))
    else if !MaybeNumber(s) && Accepts(s + ",\"\": 1" + closing) then Some(Join(s, ",\"" + marker, KEY_END + closing))
    else if Accepts(s + KEY_END + closing) then Some(Join(s, marker, KEY_END + closing))
    else if EndsInBackslash(s) && Accepts(s + "\\\": 1" + closing) then Some(Join(s, "\\" + marker, KEY_END + closing))
    else if Accepts(s + UnicodePadding(s) + KEY_END + closing) then
      Some(Join(s, UnicodePadding(s) + marker, KEY_END + closing))
    else CutBack(s, false, closing, marker)
  }

  /** The stack when the truncated text has been scanned to its end. */
  function ErrorStack(s: string): seq<Elem> {
    Finish(Run(START, s)).stack
  }

  /** The healing branches of common_json_parse; None where the code throws or gives up. The final json::parse of the
      healed text is not part of it: whether it succeeds is what is to be proved. */
  function Heal(s: string, marker: string): Option<Healed> {
    var stack := ErrorStack(s);
    var closing := Closing(stack);
    match (Top(stack), LastNonSp(s))
    case (None, _) =>
      if s == [] then None
      else if Accepts(s + QUOTE) then Some(Join(s, marker, QUOTE))
      else if EndsInBackslash(s) && Accepts(s + "\\\"") then Some(Join(s, "\\" + marker, QUOTE))
      else None
    case (_, None) => None
    case (Some(Key), Some(c)) => HealKey(s, c, closing, marker)
    case (Some(Array), Some(c)) => HealArray(s, c, closing, marker)
    case (Some(Object), Some(c)) => HealObject(s, c, closing, marker)
  }

  // ----- The scanning object

  /** json_error_locator: the SAX callbacks push and pop `stack`. `mode` is where the JSON lexer stands. */
  class ErrorLocator {
    var mode: Mode
    var stack: seq<Elem>

    constructor ()
      ensures State(mode, stack) == START
    {
      mode, stack := Value, [];
    }

    /** close_value, run by every callback that ends a value. */
    method CloseTop()
      modifies this`stack
      ensures stack == CloseValue(old(stack))
    {
      if stack != [] && stack[|stack| - 1] == Key {
        stack := stack[..|stack| - 1];
      }
    }

    /** end_object and end_array. */
    method EndTop()
      requires stack != []
      modifies this`stack
      ensures stack == EndContainer(old(stack))
    {
      stack := stack[..|stack| - 1];
      CloseTop();
    }

    /** start_object, start_array and key. */
    method PushElem(e: Elem)
      modifies this`stack
      ensures stack == old(stack) + [e]
    {
      stack := stack + [e];
    }

    method FeedValueStart(c: char)
      modifies this
      ensures State(mode, stack) == StartValue(c, old(stack))
    {
      if c == '{' {
        PushElem(Object);
        mode := FirstKey;
      } else if c == '[' {
        PushElem(Array);
        mode := FirstItem;
      } else {
        mode, stack := StartValue(c, stack).mode, StartValue(c, stack).stack;
      }
    }

    method FeedAfter(c: char)
      modifies this
      ensures State(mode, stack) == AfterStep(c, old(stack))
    {
      if IsWs(c) {
        mode := After;
      } else if Top(stack) == Some(Object) && c == ',' {
        mode := NextKey;
      } else if Top(stack) == Some(Array) && c == ',' {
        mode := Value;
      } else if (Top(stack) == Some(Object) && c == '}') || (Top(stack) == Some(Array) && c == ']') {
        EndTop();
        mode := After;
      } else {
        mode, stack := Dead, [];
      }
    }

    /** One character of the text, with the callback it completes. */
    method Feed(c: char)
      modifies this
      ensures State(mode, stack) == Step(old(State(mode, stack)), c)
    {
      match mode
      case Value => if !IsWs(c) { FeedValueStart(c); }
      case FirstItem =>
        if IsWs(c) {
        } else if c == ']' && stack != [] {
          EndTop();
          mode := After;
        } else if c == ']' {
          mode, stack := Dead, [];
        } else {
          FeedValueStart(c);
        }
      case FirstKey =>
        if IsWs(c) {
        } else if c == '}' && stack != [] {
          EndTop();
          mode := After;
        } else {
          mode, stack := Step(State(mode, stack), c).mode, Step(State(mode, stack), c).stack;
        }
      case After => FeedAfter(c);
      case Str(isKey, x) =>
        if x.Plain? && c == '"' {
          if isKey {
            PushElem(Key);
            mode := Colon;
          } else {
            CloseTop();
            mode := After;
          }
        } else {
          mode, stack := Step(State(mode, stack), c).mode, Step(State(mode, stack), c).stack;
        }
      case Num(n) =>
        var next := NumStep(n, c);
        if next.Some? {
          mode := Num(next.value);
        } else if n.Complete() {
          CloseTop();
          FeedAfter(c);
        } else {
          mode, stack := Dead, [];
        }
      case Lit(rest) =>
        if rest == [] || c != rest[0] {
          mode, stack := Dead, [];
        } else if |rest| == 1 {
          CloseTop();
          mode := After;
        } else {
          mode := Lit(rest[1..]);
        }
      case _ => mode, stack := Step(State(mode, stack), c).mode, Step(State(mode, stack), c).stack;
    }

    /** sax_parse over a truncated text: afterwards `stack` is what the healing branches look at. */
    method Scan(s: string)
      requires State(mode, stack) == START
      modifies this
      ensures State(mode, stack) == Finish(Run(START, s))
    {
      for i := 0 to |s|
        invariant State(mode, stack) == Run(START, s[..i])
      {
        Feed(s[i]);
        assert s[..i + 1][..i] == s[..i];
        RunSnoc(START, s[..i + 1]);
      }
      assert s[..|s|] == s;
      if mode.Num? && mode.n.Complete() {
        CloseTop();
        mode := After;
      }
    }
  }

  lemma ClosingTop(stack: seq<Elem>, i: nat)
    requires 0 < i <= |stack|
    ensures Closing(stack[..i]) == Closer(stack[i - 1]) + Closing(stack[..i - 1])
  {
    assert stack[..i][..i - 1] == stack[..i - 1];
  }

  lemma AddCloser(a: string, b: string, c: string)
    ensures a + b + c == a + (b + c)
  {
  }

  lemma ClosingEnds(stack: seq<Elem>, closing: string)
    ensures closing + Closing(stack[..0]) == closing && stack[..|stack|] == stack && [] + Closing(stack) == Closing(stack)
  {
  }

  /** The loop that builds `closing` from the top of the stack down. */
  method BuildClosing(stack: seq<Elem>) returns (closing: string)
    ensures closing == Closing(stack)
  {
    hide Closing;
    closing := [];
    var i := |stack|;
    ClosingEnds(stack, closing);
    while i > 0
      invariant 0 <= i <= |stack|
      invariant closing + Closing(stack[..i]) == Closing(stack)
    {
      var el := stack[i - 1];
      ClosingTop(stack, i);
      AddCloser(closing, Closer(el), Closing(stack[..i - 1]));
      if el == Object {
        closing := closing + "}";
      } else if el == Array {
        closing := closing + "]";
      } else {
        assert closing + [] == closing;
      }
      i := i - 1;
    }
    ClosingEnds(stack, closing);
  }

  /** The healing part of common_json_parse on a text that broke off at its end. */
  method HealTruncated(s: string, marker: string) returns (r: Option<Healed>)
    requires Run(START, s).mode != Dead
    ensures r == Heal(s, marker)
  {
    var locator := new ErrorLocator();
    locator.Scan(s);
    var closing := BuildClosing(locator.stack);
    var last := LastNonSp(s);
    if locator.stack == [] {
      if s == [] { return None; }
      if Accepts(s + QUOTE) { return Some(Join(s, marker, QUOTE)); }
      if EndsInBackslash(s) && Accepts(s + "\\\"") { return Some(Join(s, "\\" + marker, QUOTE)); }
      return None;
    }
    if last.None? { return None; }
    match locator.stack[|locator.stack| - 1]
    case Key => r := HealKey(s, last.value, closing, marker);
    case Array => r := HealArray(s, last.value, closing, marker);
    case Object => r := HealObject(s, last.value, closing, marker);
  }

  // ----- What the last characters of a live text say about its state

  predicate IsNumChar(c: char) {
    IsDigit(c) || c == '.' || IsE(c) || c == '-' || c == '+'
  }

  predicate Suffix(s: string, t: string) {
    |t| <= |s| && s[|s| - |t|..] == t
  }

  predicate StrTail(s: string, st: StrState) {
    match st
    case Plain => true
    case Owed(_) => s != [] && s[|s| - 1] as int >= 0x80
    case Back => Suffix(s, "\\")
    case Unit(ds) => Suffix(s, "\\u" + ds)
    case High(h) => Suffix(s, "\\u" + h)
    case HighBack(h) => Suffix(s, "\\u" + h + "\\")
    case Low(h, ds) => Suffix(s, "\\u" + h + "\\u" + ds)
  }

  predicate IsEndOfValue(c: char) {
    c == '"' || c == '}' || c == ']' || c == 'e' || c == 'l'
  }

  /** The trace that a state leaves at the end of the text. */
  predicate Trace(s: string, st: State) {
    match st.mode
    case Value => (Top(st.stack) == Some(Key) ==> LastNonSp(s) == Some(':')) && (Top(st.stack) == Some(Array) ==> LastNonSp(s) == Some(','))
    case FirstItem => LastNonSp(s) == Some('[')
    case FirstKey => LastNonSp(s) == Some('{')
    case NextKey => LastNonSp(s) == Some(',')
    case Colon => LastNonSp(s) == Some('"')
    case After =>
      && s != []
      && LastNonSp(s).Some? && (IsEndOfValue(LastNonSp(s).value) || IsDigit(LastNonSp(s).value))
      && (IsWs(s[|s| - 1]) || IsEndOfValue(s[|s| - 1]))
    case Str(_, x) => s != [] && StrTail(s, x)
    case Num(n) => s != [] && IsNumChar(s[|s| - 1]) && (n.Complete() ==> IsDigit(s[|s| - 1]))
    case Lit(rest) => s != [] && 'a' <= s[|s| - 1] <= 'z' && (rest == "rue" || rest == "ue" || rest == "e" || rest == "alse"
      || rest == "lse" || rest == "se" || rest == "ull" || rest == "ll" || rest == "l")
    case Dead => true
  }

  lemma LastNonSpSnoc(s: string, c: char)
    ensures LastNonSp(s + [c]) == if IsWs(c) then LastNonSp(s) else Some(c)
  {
    assert (s + [c])[..|s|] == s;
  }

  lemma SuffixSnoc(s: string, t: string, c: char)
    requires Suffix(s, t)
    ensures Suffix(s + [c], t + [c])
  {
    assert (s + [c])[|s| - |t|..] == s[|s| - |t|..] + [c];
  }

  lemma LastSuffix(s: string, c: char)
    ensures Suffix(s + [c], [c]) && (s + [c])[|s + [c]| - 1] == c
  {
  }

  lemma OwedStep(x: StrState, c: char)
    requires StrStep(x, c).Some? && StrStep(x, c).value.Owed? && DigitsFit(x)
    ensures c as int >= 0x80
  {
  }

  /** The digit joins those read so far. */
  lemma DigitText(pre: string, ds: string, c: char)
    ensures pre + ds + [c] == pre + (ds + [c])
  {
  }

  lemma UnitTrace(s: string, ds: string, c: char)
    requires Suffix(s, "\\u" + ds)
    ensures Suffix(s + [c], "\\u" + (ds + [c]))
  {
    hide Suffix;
    SuffixSnoc(s, "\\u" + ds, c);
    DigitText("\\u", ds, c);
  }

  lemma LowTrace(s: string, h: string, ds: string, c: char)
    requires Suffix(s, "\\u" + h + "\\u" + ds)
    ensures Suffix(s + [c], "\\u" + h + "\\u" + (ds + [c]))
  {
    hide Suffix;
    SuffixSnoc(s, "\\u" + h + "\\u" + ds, c);
    DigitText("\\u" + h + "\\u", ds, c);
  }

  lemma BackTrace(s: string)
    requires Suffix(s, "\\")
    ensures Suffix(s + ['u'], "\\u" + [])
  {
    hide Suffix;
    SuffixSnoc(s, "\\", 'u');
    assert "\\" + ['u'] == "\\u" + [];
  }

  lemma HighBackTrace(s: string, h: string)
    requires Suffix(s, "\\u" + h + "\\")
    ensures Suffix(s + ['u'], "\\u" + h + "\\u" + [])
  {
    hide Suffix;
    SuffixSnoc(s, "\\u" + h + "\\", 'u');
    DigitText("\\u" + h, "\\", 'u');
    assert "\\" + ['u'] == "\\u" && "\\u" + h + "\\u" + [] == "\\u" + h + "\\u";
  }

  lemma StrTraceStep(s: string, x: StrState, c: char)
    requires StrTail(s, x) && StrStep(x, c).Some? && DigitsFit(x)
    ensures StrTail(s + [c], StrStep(x, c).value)
  {
    hide Suffix, HighDigits, LowDigits, DigitsFit, Following, IsHex;
    LastSuffix(s, c);
    if StrStep(x, c).value.Owed? {
      OwedStep(x, c);
    }
    match x
    case Plain =>
    case Owed(_) =>
    case Back => if c == 'u' { BackTrace(s); }
    case Unit(ds) => UnitTrace(s, ds, c);
    case High(h) => SuffixSnoc(s, "\\u" + h, c);
    case HighBack(h) => HighBackTrace(s, h);
    case Low(h, ds) => LowTrace(s, h, ds, c);
  }

  lemma AfterTrace(s: string, stack: seq<Elem>, c: char)
    requires s != []
    requires LastNonSp(s).Some? && (IsEndOfValue(LastNonSp(s).value) || IsDigit(LastNonSp(s).value))
    ensures Trace(s + [c], AfterStep(c, stack))
  {
    hide LastNonSp, EndContainer;
    LastNonSpSnoc(s, c);
  }

  lemma StartTrace(s: string, stack: seq<Elem>, c: char)
    ensures Trace(s + [c], StartValue(c, stack))
  {
    hide LastNonSp, Suffix;
    LastNonSpSnoc(s, c);
  }

  lemma TraceStep(s: string, st: State, c: char)
    requires Trace(s, st) && Fits(st)
    ensures Trace(s + [c], Step(st, c))
  {
    hide Nested, StartValue, AfterStep, LastNonSp, StrStep, Suffix;
    LastNonSpSnoc(s, c);
    match st.mode
    case Value => StartTrace(s, st.stack, c);
    case FirstItem => StartTrace(s, st.stack, c);
    case After => AfterTrace(s, st.stack, c);
    case Str(_, x) => if StrStep(x, c).Some? { StrTraceStep(s, x, c); }
    case Num(n) =>
      if n.Complete() && NumStep(n, c).None? {
        LastOfNonSpace(s);
        AfterTrace(s, CloseValue(st.stack), c);
      }
    case Lit(rest) => LitTrace(s, st, c);
    case _ =>
  }

  lemma LastOfNonSpace(s: string)
    requires s != [] && !IsWs(s[|s| - 1])
    ensures LastNonSp(s) == Some(s[|s| - 1])
  {
  }

  lemma LitTrace(s: string, st: State, c: char)
    requires st.mode.Lit? && Trace(s, st) && Fits(st)
    ensures Trace(s + [c], Step(st, c))
  {
    LastNonSpSnoc(s, c);
    var rest := st.mode.rest;
    assert "rue"[1..] == "ue" && "ue"[1..] == "e" && "alse"[1..] == "lse" && "lse"[1..] == "se" && "se"[1..] == "e";
    assert "ull"[1..] == "ll" && "ll"[1..] == "l";
  }

  lemma {:induction false} RunTrace(s: string)
    ensures Trace(s, Run(START, s)) && Fits(Run(START, s))
    decreases |s|
  {
    RunFits(START, s);
    if s != [] {
      var n := |s| - 1;
      RunTrace(s[..n]);
      RunSnoc(START, s);
      TraceStep(s[..n], Run(START, s[..n]), s[n]);
      assert s[..n] + [s[n]] == s;
    }
  }
}

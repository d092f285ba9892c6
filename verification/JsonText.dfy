/** A recogniser for JSON texts (sections 2 to 7 of RFC 8259) that reads one character at a time and keeps the stack
    of open containers and keys which the SAX callbacks of json-partial.cpp keep. */
module JsonText {
  import opened Text

  /** common_json_stack_element_type. */
  datatype Elem = Object | Key | Array

  datatype NumState = Minus | Zero | Int | Dot | Frac | Exp | ExpSign | ExpInt {
    predicate Complete() { Zero? || Int? || Frac? || ExpInt? }
  }

  /** Where a string is: plain text, inside a UTF-8 character with the ranges of the bytes still owed, after a backslash,
      or inside a \u escape with the hex digits read so far. A high surrogate must be followed by a second escape with a low
      surrogate; a digit after which no valid pair can follow is refused at once. */
  datatype StrState =
    | Plain
    | Owed(ranges: seq<(int, int)>)
    | Back
    | Unit(digits: string)
    | High(high: string)
    | HighBack(high: string)
    | Low(high: string, digits: string)

  datatype Mode =
    | Value        // a value must come
    | FirstItem    // just after '[': a value or ']'
    | FirstKey     // just after '{': a key or '}'
    | NextKey      // after ',' in an object: a key
    | Colon        // after a key
    | After        // after a value
    | Str(isKey: bool, s: StrState)
    | Num(n: NumState)
    | Lit(rest: string)
    | Dead

  datatype State = State(mode: Mode, stack: seq<Elem>)

  const DEAD := State(Dead, [])
  const START := State(Value, [])

  // ----- SAX callbacks

  function Top(stack: seq<Elem>): Option<Elem> {
    if stack == [] then None else Some(stack[|stack| - 1])
  }

  function CloseValue(stack: seq<Elem>): seq<Elem> {
    if Top(stack) == Some(Key) then stack[..|stack| - 1] else stack
  }

  function EndContainer(stack: seq<Elem>): seq<Elem>
    requires stack != []
  {
    CloseValue(stack[..|stack| - 1])
  }

  // ----- Characters

  predicate IsWs(c: char) { c == ' ' || c == '\n' || c == '\r' || c == '\t' }
  predicate IsEscape(c: char) {
    c == '"' || c == '\\' || c == '/' || c == 'b' || c == 'f' || c == 'n' || c == 'r' || c == 't'
  }
  predicate IsPlain(c: char) { c != '"' && c != '\\' && 0x20 <= c as int < 0x80 }

  /** The ranges of the bytes that must follow a first byte of a UTF-8 character; none for any other byte. */
  function Following(c: char): seq<(int, int)> {
    var b := c as int;
    if 0xC2 <= b <= 0xDF then [(0x80, 0xBF)]
    else if b == 0xE0 then [(0xA0, 0xBF), (0x80, 0xBF)]
    else if b == 0xED then [(0x80, 0x9F), (0x80, 0xBF)]
    else if 0xE1 <= b <= 0xEF then [(0x80, 0xBF), (0x80, 0xBF)]
    else if b == 0xF0 then [(0x90, 0xBF), (0x80, 0xBF), (0x80, 0xBF)]
    else if 0xF1 <= b <= 0xF3 then [(0x80, 0xBF), (0x80, 0xBF), (0x80, 0xBF)]
    else if b == 0xF4 then [(0x80, 0x8F), (0x80, 0xBF), (0x80, 0xBF)]
    else []
  }

  predicate InRange(c: char, range: (int, int)) { range.0 <= c as int <= range.1 }

  /** The first two hex digits of a surrogate: D8..DB for a high one, DC..DF for a low one. */
  predicate HighDigits(a: char, b: char) {
    (a == 'd' || a == 'D') && (b == '8' || b == '9' || b == 'a' || b == 'b' || b == 'A' || b == 'B')
  }
  predicate LowDigits(a: char, b: char) {
    (a == 'd' || a == 'D') && ('c' <= b <= 'f' || 'C' <= b <= 'F')
  }
  predicate IsE(c: char) { c == 'e' || c == 'E' }

  // ----- One character

  /** A character that starts a value. */
  function StartValue(c: char, stack: seq<Elem>): State {
    if c == '"' then State(Str(false, Plain), stack)
    else if c == '{' then State(FirstKey, stack + [Object])
    else if c == '[' then State(FirstItem, stack + [Array])
    else if c == '-' then State(Num(Minus), stack)
    else if c == '0' then State(Num(Zero), stack)
    else if IsDigit(c) then State(Num(Int), stack)
    else if c == 't' then State(Lit("rue"), stack)
    else if c == 'f' then State(Lit("alse"), stack)
    else if c == 'n' then State(Lit("ull"), stack)
    else DEAD
  }

  function AfterStep(c: char, stack: seq<Elem>): State {
    if IsWs(c) then State(After, stack)
    else
      match Top(stack)
      case Some(Object) =>
        if c == ',' then State(NextKey, stack) else if c == '}' then State(After, EndContainer(stack)) else DEAD
      case Some(Array) =>
        if c == ',' then State(Value, stack) else if c == ']' then State(After, EndContainer(stack)) else DEAD
      case _ => DEAD
  }

  /** The next state of an unfinished number, or None when `c` does not belong to it. */
  function NumStep(n: NumState, c: char): Option<NumState> {
    match n
    case Minus => if c == '0' then Some(Zero) else if IsDigit(c) then Some(Int) else None
    case Zero => if c == '.' then Some(Dot) else if IsE(c) then Some(Exp) else None
    case Int => if IsDigit(c) then Some(Int) else if c == '.' then Some(Dot) else if IsE(c) then Some(Exp) else None
    case Dot => if IsDigit(c) then Some(Frac) else None
    case Frac => if IsDigit(c) then Some(Frac) else if IsE(c) then Some(Exp) else None
    case Exp => if c == '+' || c == '-' then Some(ExpSign) else if IsDigit(c) then Some(ExpInt) else None
    case ExpSign => if IsDigit(c) then Some(ExpInt) else None
    case ExpInt => if IsDigit(c) then Some(ExpInt) else None
  }

  /** The next state inside a string, other than its closing quote. */
  function StrStep(s: StrState, c: char): Option<StrState> {
    match s
    case Plain =>
      if c == '\\' then Some(Back)
      else if IsPlain(c) then Some(Plain)
      else if Following(c) != [] then Some(Owed(Following(c)))
      else None
    case Owed(rs) =>
      if rs == [] || !InRange(c, rs[0]) then None else if |rs| == 1 then Some(Plain) else Some(Owed(rs[1..]))
    case Back => if c == 'u' then Some(Unit([])) else if IsEscape(c) then Some(Plain) else None
    case Unit(ds) =>
      if !IsHex(c) || (|ds| == 1 && LowDigits(ds[0], c)) then None
      else if |ds| < 3 then Some(Unit(ds + [c]))
      else if HighDigits(ds[0], ds[1]) then Some(High(ds + [c]))
      else Some(Plain)
    case High(h) => if c == '\\' then Some(HighBack(h)) else None
    case HighBack(h) => if c == 'u' then Some(Low(h, [])) else None
    case Low(h, ds) =>
      if !IsHex(c) || (|ds| == 0 && c != 'd' && c != 'D') || (|ds| == 1 && !LowDigits(ds[0], c)) then None
      else if |ds| < 3 then Some(Low(h, ds + [c]))
      else Some(Plain)
  }

  function Step(st: State, c: char): State {
    match st.mode
    case Value => if IsWs(c) then st else StartValue(c, st.stack)
    case FirstItem =>
      if IsWs(c) then st
      else if c == ']' then if st.stack == [] then DEAD else State(After, EndContainer(st.stack))
      else StartValue(c, st.stack)
    case FirstKey =>
      if IsWs(c) then st
      else if c == '"' then State(Str(true, Plain), st.stack)
      else if c == '}' then if st.stack == [] then DEAD else State(After, EndContainer(st.stack))
      else DEAD
    case NextKey => if IsWs(c) then st else if c == '"' then State(Str(true, Plain), st.stack) else DEAD
    case Colon => if IsWs(c) then st else if c == ':' then State(Value, st.stack) else DEAD
    case After => AfterStep(c, st.stack)
    case Str(isKey, s) =>
      if s.Plain? && c == '"' then
        if isKey then State(Colon, st.stack + [Key]) else State(After, CloseValue(st.stack))
      else (match StrStep(s, c) case Some(s') => State(Str(isKey, s'), st.stack) case None => DEAD)
    case Num(n) =>
      (match NumStep(n, c)
       case Some(n') => State(Num(n'), st.stack)
       case None => if n.Complete() then AfterStep(c, CloseValue(st.stack)) else DEAD)
    case Lit(rest) =>
      if rest == [] || c != rest[0] then DEAD
      else if |rest| == 1 then State(After, CloseValue(st.stack))
      else State(Lit(rest[1..]), st.stack)
    case Dead => DEAD
  }

  function Run(st: State, t: string): State
    decreases |t|
  {
    if t == [] then st else Run(Step(st, t[0]), t[1..])
  }

  /** The end of the text completes a number. */
  function Finish(st: State): State {
    if st.mode.Num? && st.mode.n.Complete() then State(After, CloseValue(st.stack)) else st
  }

  /** json::parse succeeds. */
  predicate AcceptsFrom(st: State, t: string) {
    Finish(Run(st, t)) == State(After, [])
  }

  predicate Accepts(t: string) {
    AcceptsFrom(START, t)
  }

  // ----- Runs

  lemma RunConcat(st: State, s: string, t: string)
    ensures Run(st, s + t) == Run(Run(st, s), t)
    decreases |s|
  {
    if s == [] {
      assert s + t == t;
    } else {
      assert (s + t)[1..] == s[1..] + t;
      RunConcat(Step(st, s[0]), s[1..], t);
    }
  }

  lemma RunOne(st: State, c: char)
    ensures Run(st, [c]) == Step(st, c)
  {
    assert Run(Step(st, c), []) == Step(st, c);
  }

  lemma RunCons(st: State, c: char, t: string)
    ensures Run(st, [c] + t) == Run(Step(st, c), t)
  {
    assert ([c] + t)[1..] == t;
  }

  lemma RunSnoc(st: State, t: string)
    requires t != []
    ensures Run(st, t) == Step(Run(st, t[..|t| - 1]), t[|t| - 1])
  {
    var n := |t| - 1;
    assert t == t[..n] + [t[n]];
    RunConcat(st, t[..n], [t[n]]);
    RunOne(Run(st, t[..n]), t[n]);
  }

  lemma DeadStays(t: string)
    ensures Run(DEAD, t) == DEAD
    decreases |t|
  {
    if t != [] {
      DeadStays(t[1..]);
    }
  }

  /** A text that can still become JSON was so at every earlier point. */
  lemma AliveBefore(st: State, s: string, t: string)
    requires Run(st, s + t).mode != Dead && (st.mode.Dead? ==> st == DEAD)
    ensures Run(st, s).mode != Dead
  {
    RunConcat(st, s, t);
    DeadIsOne(st, s);
    DeadStays(t);
  }

  lemma DeadIsOne(st: State, t: string)
    requires st.mode.Dead? ==> st == DEAD
    ensures Run(st, t).mode.Dead? ==> Run(st, t) == DEAD
    decreases |t|
  {
    if t != [] {
      DeadIsOne(Step(st, t[0]), t[1..]);
    }
  }

  // ----- The stack

  /** Keys lie directly on objects; containers lie on keys, on arrays, or at the bottom. */
  predicate Nested(stack: seq<Elem>) {
    stack != [] ==>
      var rest := stack[..|stack| - 1];
      && Nested(rest)
      && (if Top(stack) == Some(Key) then Top(rest) == Some(Object) else Top(rest) != Some(Object))
  }

  /** The digits of an unfinished escape. */
  predicate DigitsFit(s: StrState) {
    && (s.Owed? ==> s.ranges != [] && forall i :: 0 <= i < |s.ranges| ==> 0x80 <= s.ranges[i].0 && s.ranges[i].1 <= 0xBF)
    && (s.Unit? ==> AllHex(s.digits) && |s.digits| <= 3 && (|s.digits| >= 2 ==> !LowDigits(s.digits[0], s.digits[1])))
    && (s.High? || s.HighBack? || s.Low? ==> AllHex(s.high) && |s.high| == 4 && HighDigits(s.high[0], s.high[1]))
    && (s.Low? ==> AllHex(s.digits) && |s.digits| <= 3)
    && (s.Low? && |s.digits| >= 1 ==> s.digits[0] == 'd' || s.digits[0] == 'D')
    && (s.Low? && |s.digits| >= 2 ==> LowDigits(s.digits[0], s.digits[1]))
  }

  predicate Letters(s: string) {
    forall i :: 0 <= i < |s| ==> 'a' <= s[i] <= 'z'
  }

  predicate AllHex(s: string) {
    forall i :: 0 <= i < |s| ==> IsHex(s[i])
  }

  /** The stack suits the mode. */
  predicate Fits(st: State) {
    && Nested(st.stack)
    && match st.mode
       case Value => Top(st.stack) != Some(Object)
       case FirstItem => Top(st.stack) == Some(Array)
       case FirstKey => Top(st.stack) == Some(Object)
       case NextKey => Top(st.stack) == Some(Object)
       case Colon => Top(st.stack) == Some(Key)
       case After => Top(st.stack) != Some(Key)
       case Str(isKey, s) =>
         && (if isKey then Top(st.stack) == Some(Object) else Top(st.stack) != Some(Object))
         && DigitsFit(s)
       case Num(_) => Top(st.stack) != Some(Object)
       case Lit(rest) => Top(st.stack) != Some(Object) && rest != [] && Letters(rest)
       case Dead => true
  }

  lemma DeadFits()
    ensures Fits(DEAD)
  {
  }

  lemma NestedPush(stack: seq<Elem>, e: Elem)
    requires Nested(stack)
    requires if e == Key then Top(stack) == Some(Object) else Top(stack) != Some(Object)
    ensures Nested(stack + [e]) && Top(stack + [e]) == Some(e)
  {
    var s := stack + [e];
    assert s[..|s| - 1] == stack;
  }

  lemma CloseValueFits(stack: seq<Elem>)
    requires Nested(stack) && Top(stack) != Some(Object)
    ensures Nested(CloseValue(stack)) && Top(CloseValue(stack)) != Some(Key)
  {
  }

  lemma EndContainerFits(stack: seq<Elem>)
    requires Nested(stack) && stack != [] && Top(stack) != Some(Key)
    ensures Nested(EndContainer(stack)) && Top(EndContainer(stack)) != Some(Key)
  {
    CloseValueFits(stack[..|stack| - 1]);
  }

  lemma AfterStepFits(c: char, stack: seq<Elem>)
    requires Nested(stack) && Top(stack) != Some(Key)
    ensures Fits(AfterStep(c, stack))
  {
    hide Nested, EndContainer;
    DeadFits();
    if stack != [] {
      EndContainerFits(stack);
    }
  }

  lemma StartValueFits(c: char, stack: seq<Elem>)
    requires Nested(stack) && Top(stack) != Some(Object)
    ensures Fits(StartValue(c, stack))
  {
    hide Nested, DigitsFit, Letters;
    DeadFits();
    PlainFits();
    if c == '{' {
      NestedPush(stack, Object);
    } else if c == '[' {
      NestedPush(stack, Array);
    } else {
      WordLetters();
    }
  }

  lemma PlainFits()
    ensures DigitsFit(Plain)
  {
  }

  lemma WordLetters()
    ensures Letters("rue") && Letters("alse") && Letters("ull")
    ensures "rue" != [] && "alse" != [] && "ull" != []
  {
    assert |"rue"| == 3 && |"alse"| == 4 && |"ull"| == 3;
  }

  lemma FollowingFits(c: char)
    requires Following(c) != []
    ensures DigitsFit(Owed(Following(c)))
  {
    hide HighDigits, LowDigits, AllHex;
  }

  /** A step inside a string keeps the digits and the bytes owed in order. */
  lemma StrStepDigits(s: StrState, c: char)
    requires DigitsFit(s) && StrStep(s, c).Some?
    ensures DigitsFit(StrStep(s, c).value)
  {
    hide IsHex, HighDigits, LowDigits, Following;
    match s {
      case Plain => if Following(c) != [] { FollowingFits(c); }
      case Owed(_) => hide AllHex;
      case Unit(ds) => assert AllHex(ds + [c]);
      case Low(_, ds) => assert AllHex(ds + [c]);
      case _ =>
    }
  }

  lemma StrStepFits(st: State, c: char)
    requires Fits(st) && st.mode.Str?
    ensures Fits(Step(st, c))
  {
    hide Nested, DigitsFit, StrStep;
    DeadFits();
    PlainFits();
    if StrStep(st.mode.s, c).Some? { StrStepDigits(st.mode.s, c); }
    if st.mode.isKey { NestedPush(st.stack, Key); } else { CloseValueFits(st.stack); }
  }

  lemma StepFits(st: State, c: char)
    requires Fits(st)
    ensures Fits(Step(st, c))
  {
    hide Nested, StartValue, AfterStep, CloseValue;
    DeadFits();
    match st.mode
    case Value => StartValueFits(c, st.stack);
    case FirstItem =>
      StartValueFits(c, st.stack);
      EndContainerFits(st.stack);
    case FirstKey => EndContainerFits(st.stack);
    case After => AfterStepFits(c, st.stack);
    case Str(_, _) => StrStepFits(st, c);
    case Num(n) =>
      CloseValueFits(st.stack);
      AfterStepFits(c, CloseValue(st.stack));
    case Lit(_) => CloseValueFits(st.stack);
    case _ =>
  }

  lemma RunFits(st: State, t: string)
    requires Fits(st)
    ensures Fits(Run(st, t))
    decreases |t|
  {
    if t != [] {
      StepFits(st, t[0]);
      RunFits(Step(st, t[0]), t[1..]);
    }
  }
}

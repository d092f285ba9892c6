/** Which truncated JSON texts are completed to a text the recogniser accepts. */
module JsonHealing {
  import opened Text
  import opened JsonText
  import opened JsonPartial

  /** A marker made of plain characters; the first one cannot follow a value or a key. */
  predicate GoodMarker(m: string) {
    && m != [] && PlainText(m)
    && !IsWs(m[0]) && m[0] != ',' && m[0] != ':' && m[0] != ']' && m[0] != '}'
  }

  predicate PlainText(m: string) {
    forall i :: 0 <= i < |m| ==> IsPlain(m[i])
  }

  // ----- Tools

  lemma AcceptsAfter(s: string, x: string, closing: string)
    ensures Accepts(s + x + closing) == AcceptsFrom(Run(START, s), x + closing)
  {
    hide Run;
    assert s + x + closing == s + (x + closing);
    RunConcat(START, s, x + closing);
  }

  lemma JoinAccepts(s: string, d: string, end: string)
    ensures Accepts(Join(s, d, end).text) == AcceptsFrom(Run(START, s), d + end)
  {
    AcceptsAfter(s, d, end);
  }

  lemma DiesAt(st: State, c: char, t: string)
    requires Step(st, c) == DEAD
    ensures !AcceptsFrom(st, [c] + t)
  {
    hide Run;
    RunCons(st, c, t);
    DeadStays(t);
  }

  lemma PlainRun(isKey: bool, stack: seq<Elem>, m: string)
    requires PlainText(m)
    ensures Run(State(Str(isKey, Plain), stack), m) == State(Str(isKey, Plain), stack)
    decreases |m|
  {
    if m != [] {
      PlainRun(isKey, stack, m[1..]);
    }
  }

  predicate NoQuotes(t: string) {
    forall i :: 0 <= i < |t| ==> t[i] != '"'
  }

  /** Only a quote leaves a string. */
  lemma StaysInString(st: State, t: string)
    requires (st.mode.Str? || st.mode.Dead?) && NoQuotes(t)
    ensures Run(st, t).mode.Str? || Run(st, t).mode.Dead?
    ensures !AcceptsFrom(st, t)
    decreases |t|
  {
    if t != [] {
      StaysInString(Step(st, t[0]), t[1..]);
    }
  }

  // ----- Closers

  predicate Closers(c: string) {
    forall i :: 0 <= i < |c| ==> c[i] == '}' || c[i] == ']'
  }

  lemma ClosingIsClosers(stack: seq<Elem>)
    ensures Closers(Closing(stack))
  {
    if stack != [] {
      ClosingIsClosers(stack[..|stack| - 1]);
    }
  }

  lemma ClosingSkipsKey(stack: seq<Elem>)
    ensures Closing(CloseValue(stack)) == Closing(stack)
  {
    if Top(stack) == Some(Key) {
      assert Closing(stack) == [] + Closing(stack[..|stack| - 1]);
    }
  }

  lemma ClosingNonEmpty(stack: seq<Elem>)
    requires Nested(stack) && stack != []
    ensures Closing(stack) != []
  {
  }

  lemma ClosingUnfold(stack: seq<Elem>)
    requires stack != [] && Top(stack) != Some(Key)
    ensures Closing(stack) == [if Top(stack) == Some(Object) then '}' else ']'] + Closing(EndContainer(stack))
    ensures |EndContainer(stack)| < |stack|
  {
    ClosingSkipsKey(stack[..|stack| - 1]);
  }

  /** The closers of the stack close everything, and nothing but them does. */
  lemma {:induction false} ClosersClose(stack: seq<Elem>, c: string)
    requires Nested(stack) && Top(stack) != Some(Key) && Closers(c)
    ensures AcceptsFrom(State(After, stack), c) <==> c == Closing(stack)
    decreases |c|
  {
    var st := State(After, stack);
    if c == [] {
      assert stack != [] ==> Closing(stack) != [] by {
        if stack != [] { ClosingUnfold(stack); }
      }
    } else {
      var rest := c[1..];
      assert c == [c[0]] + rest;
      RunCons(st, c[0], rest);
      if stack == [] {
        DeadStays(rest);
      } else {
        ClosingUnfold(stack);
        EndContainerFits(stack);
        if Step(st, c[0]) == DEAD {
          DeadStays(rest);
        } else {
          ClosersClose(EndContainer(stack), rest);
        }
      }
    }
  }

  lemma CloseAll(stack: seq<Elem>)
    requires Nested(stack) && Top(stack) != Some(Key)
    ensures AcceptsFrom(State(After, stack), Closing(stack))
  {
    ClosingIsClosers(stack);
    ClosersClose(stack, Closing(stack));
  }

  /** A complete number in front of closers counts as a value. */
  lemma NumberThenClosers(stack: seq<Elem>, c: string)
    requires Closers(c)
    ensures AcceptsFrom(State(Num(Int), stack), c) == AcceptsFrom(State(After, CloseValue(stack)), c)
  {
    if c != [] {
      assert c == [c[0]] + c[1..];
      RunCons(State(Num(Int), stack), c[0], c[1..]);
      RunCons(State(After, CloseValue(stack)), c[0], c[1..]);
    }
  }

  lemma CloseValueThenAll(stack: seq<Elem>)
    requires Nested(stack) && Top(stack) != Some(Object)
    ensures AcceptsFrom(State(After, CloseValue(stack)), Closing(stack))
  {
    CloseValueFits(stack);
    ClosingSkipsKey(stack);
    CloseAll(CloseValue(stack));
  }

  // ----- Completions that are accepted

  /** A value string, to be ended. */
  lemma EndValueString(stack: seq<Elem>, m: string)
    requires Nested(stack) && Top(stack) != Some(Object) && PlainText(m)
    ensures AcceptsFrom(State(Str(false, Plain), stack), m + (QUOTE + Closing(stack)))
  {
    hide Run, Nested;
    var st, c := State(Str(false, Plain), stack), Closing(stack);
    PlainRun(false, stack, m);
    RunConcat(st, m, QUOTE + c);
    RunCons(st, '"', c);
    CloseValueThenAll(stack);
  }

  /** A whole new string value. */
  lemma NewString(st: State, m: string, c: string)
    requires Fits(st) && (st.mode.Value? || st.mode.FirstItem?) && PlainText(m)
    ensures Run(st, (QUOTE + m) + (QUOTE + c)) == Run(State(After, CloseValue(st.stack)), c)
  {
    hide Run, Nested, PlainText;
    var s := State(Str(false, Plain), st.stack);
    QuoteText(m, c);
    RunCons(st, '"', m + (['"'] + c));
    PlainRun(false, st.stack, m);
    RunConcat(s, m, ['"'] + c);
    RunCons(s, '"', c);
  }

  lemma QuoteText(m: string, c: string)
    ensures (QUOTE + m) + (QUOTE + c) == ['"'] + (m + (['"'] + c))
  {
  }

  lemma NewValueString(st: State, m: string)
    requires Fits(st) && (st.mode.Value? || st.mode.FirstItem?) && PlainText(m)
    ensures AcceptsFrom(st, (QUOTE + m) + (QUOTE + Closing(st.stack)))
  {
    hide Run, Nested;
    NewString(st, m, Closing(st.stack));
    CloseValueThenAll(st.stack);
  }

  lemma NewNumber(st: State)
    requires Fits(st) && (st.mode.Value? || st.mode.FirstItem?)
    ensures AcceptsFrom(st, "1" + Closing(st.stack))
  {
    hide Run, Nested;
    var c := Closing(st.stack);
    assert "1" + c == ['1'] + c;
    RunCons(st, '1', c);
    ClosingIsClosers(st.stack);
    NumberThenClosers(st.stack, c);
    CloseValueThenAll(st.stack);
  }

  /** Behind a finished key: ": 1". */
  lemma AfterKey(stack: seq<Elem>, c: string)
    ensures Run(State(Colon, stack), ": 1" + c) == Run(State(Num(Int), stack), c)
  {
    hide Run;
    assert ": 1" + c == [':'] + ([' '] + (['1'] + c));
    RunCons(State(Colon, stack), ':', [' '] + (['1'] + c));
    RunCons(State(Value, stack), ' ', ['1'] + c);
    RunCons(State(Value, stack), '1', c);
  }

  lemma KeyThenNumber(stack: seq<Elem>)
    requires Nested(stack) && Top(stack) == Some(Key)
    ensures AcceptsFrom(State(Colon, stack), ": 1" + Closing(stack))
  {
    hide Run, Nested;
    AfterKey(stack, Closing(stack));
    ClosingIsClosers(stack);
    NumberThenClosers(stack, Closing(stack));
    CloseValueThenAll(stack);
  }

  /** A key string, to be ended and given a value. */
  lemma EndKeyString(stack: seq<Elem>, m: string)
    requires Nested(stack) && Top(stack) == Some(Object) && PlainText(m)
    ensures AcceptsFrom(State(Str(true, Plain), stack), m + (KEY_END + Closing(stack)))
  {
    hide Run, Nested;
    var st, c, keyed := State(Str(true, Plain), stack), Closing(stack), stack + [Key];
    PlainRun(true, stack, m);
    RunConcat(st, m, KEY_END + c);
    assert KEY_END + c == ['"'] + (": 1" + c);
    RunCons(st, '"', ": 1" + c);
    NestedPush(stack, Key);
    ClosingSkipsKey(keyed);
    assert CloseValue(keyed) == stack;
    KeyThenNumber(keyed);
  }

  lemma NewPair(st: State, m: string)
    requires Fits(st) && (st.mode.FirstKey? || st.mode.NextKey?) && PlainText(m)
    ensures AcceptsFrom(st, (QUOTE + m) + (KEY_END + Closing(st.stack)))
  {
    hide Run, Nested;
    var e := m + (KEY_END + Closing(st.stack));
    assert (QUOTE + m) + (KEY_END + Closing(st.stack)) == ['"'] + e;
    RunCons(st, '"', e);
    EndKeyString(st.stack, m);
  }

  // ----- Cutting back to a separator

  /** The cut of the last resort ends where a value of the innermost open container begins. */
  predicate CutLands(s: string) {
    var stack := ErrorStack(s);
    var i := LastSeparator(s, Top(stack) == Some(Array));
    i.Some? &&
    var t := Run(START, s[..i.value + 1]);
    (t.mode.Value? || t.mode.FirstItem?) && Closing(t.stack) == Closing(stack)
  }

  lemma SeparatorModes(st: State, c: char)
    requires Fits(st) && (c == ':' || c == '[' || c == ',')
    ensures var m := Step(st, c).mode; m.Value? || m.FirstItem? || m.NextKey? || m.Dead? || (m.Str? && m.s.Plain?)
  {
  }

  /** A quote inside a string ends it, and the marker cannot follow. */
  lemma MarkerBehindString(isKey: bool, stack: seq<Elem>, m: string, c: string)
    requires GoodMarker(m) && (isKey ==> Top(stack) == Some(Object))
    ensures !AcceptsFrom(State(Str(isKey, Plain), stack), (QUOTE + m) + (QUOTE + c))
  {
    hide Run;
    var st, rest := State(Str(isKey, Plain), stack), m[1..] + (QUOTE + c);
    assert (QUOTE + m) + (QUOTE + c) == ['"'] + ([m[0]] + rest);
    RunCons(st, '"', [m[0]] + rest);
    DiesAt(Step(st, '"'), m[0], rest);
  }

  /** The marker as a key is not followed by a colon. */
  lemma MarkerAsKey(stack: seq<Elem>, m: string, c: string)
    requires GoodMarker(m) && Closers(c) && c != []
    ensures !AcceptsFrom(State(NextKey, stack), (QUOTE + m) + (QUOTE + c))
  {
    hide Run;
    var st, key := State(NextKey, stack), State(Str(true, Plain), stack);
    assert (QUOTE + m) + (QUOTE + c) == ['"'] + (m + (QUOTE + c));
    RunCons(st, '"', m + (QUOTE + c));
    PlainRun(true, stack, m);
    RunConcat(key, m, QUOTE + c);
    RunCons(key, '"', c);
    assert c == [c[0]] + c[1..];
    DiesAt(State(Colon, stack + [Key]), c[0], c[1..]);
  }

  lemma CutPoint(s: string, i: nat)
    requires Run(START, s).mode != Dead && i < |s| && IsSeparator(s[i], s[i] != ':')
    ensures var t := Run(START, s[..i + 1]);
            Fits(t) && (t.mode.Value? || t.mode.FirstItem? || t.mode.NextKey? || (t.mode.Str? && t.mode.s.Plain?))
  {
    hide Run, Step, Fits, Nested;
    var pre := s[..i + 1];
    StartFits();
    assert pre + s[i + 1..] == s;
    AliveBefore(START, pre, s[i + 1..]);
    assert pre[..i] == s[..i];
    RunSnoc(START, pre);
    RunFits(START, s[..i]);
    StepFits(Run(START, s[..i]), s[i]);
    SeparatorModes(Run(START, s[..i]), s[i]);
  }

  lemma LastSeparatorIs(s: string, inArray: bool)
    ensures LastSeparator(s, inArray).Some? ==> IsSeparator(s[LastSeparator(s, inArray).value], inArray)
  {
  }

  /** The last resort yields an accepted text exactly when the cut lands. */
  lemma CutExact(s: string, m: string)
    requires Run(START, s).mode != Dead && ErrorStack(s) != [] && GoodMarker(m)
    ensures var stack := ErrorStack(s);
            var h := CutBack(s, Top(stack) == Some(Array), Closing(stack), m);
            h.Some? && Accepts(h.value.text) <==> CutLands(s)
  {
    hide Run, Nested, Closing;
    var stack := ErrorStack(s);
    var inArray, c := Top(stack) == Some(Array), Closing(stack);
    var sep := LastSeparator(s, inArray);
    if sep.Some? {
      var i := sep.value;
      LastSeparatorIs(s, inArray);
      CutPoint(s, i);
      var t := Run(START, s[..i + 1]);
      JoinAccepts(s[..i + 1], QUOTE + m, QUOTE + c);
      ClosingIsClosers(stack);
      if t.mode.Str? {
        MarkerBehindString(t.mode.isKey, t.stack, m, c);
      } else if t.mode.NextKey? {
        ErrorStackNested(s);
        ClosingNonEmpty(stack);
        MarkerAsKey(t.stack, m, c);
      } else {
        NewString(t, m, c);
        CloseValueFits(t.stack);
        ClosersClose(CloseValue(t.stack), c);
        ClosingSkipsKey(t.stack);
      }
    }
  }

  lemma ErrorStackNested(s: string)
    ensures Nested(ErrorStack(s))
  {
    RunFits(START, s);
    var st := Run(START, s);
    if Finish(st) != st {
      CloseValueFits(st.stack);
    }
  }

  /** Behind the separator there are only spaces: going back over them reaches it in the same state. */
  lemma {:induction false} BackToSeparator(q: string)
    requires var t := Run(START, q); (t.mode.Value? || t.mode.FirstItem?) && t.stack != []
    ensures var t := Run(START, q);
            var i := LastSeparator(q, Top(t.stack) == Some(Array));
            i.Some? && Run(START, q[..i.value + 1]) == t
    decreases |q|
  {
    hide Run, Nested;
    var t := Run(START, q);
    RunTrace(q);
    if q == [] {
      EmptyRun();
    } else {
      var n := |q| - 1;
      RunSnoc(START, q);
      var b := Run(START, q[..n]);
      RunTrace(q[..n]);
      if IsWs(q[n]) {
        BackStepSpace(b, q[n]);
        BackToSeparator(q[..n]);
        var i := LastSeparator(q[..n], Top(t.stack) == Some(Array));
        assert q[..n][..i.value + 1] == q[..i.value + 1];
      } else {
        assert LastNonSp(q) == Some(q[n]);
        assert q[..n + 1] == q;
      }
    }
  }

  lemma EmptyRun()
    ensures Run(START, []) == START
  {
  }

  lemma BackStepSpace(b: State, c: char)
    requires IsWs(c) && Fits(b)
    requires var t := Step(b, c); t.mode.Value? || t.mode.FirstItem?
    ensures Step(b, c) == b
  {
  }

  lemma NoSeparatorBehind(s: string, q: nat, inArray: bool)
    requires q <= |s| && forall j :: q <= j < |s| ==> !IsSeparator(s[j], inArray)
    ensures LastSeparator(s, inArray) == LastSeparator(s[..q], inArray)
    decreases |s|
  {
    if q == |s| {
      assert s[..q] == s;
    } else {
      var n := |s| - 1;
      NoSeparatorBehind(s[..n], q, inArray);
      assert s[..n][..q] == s[..q];
    }
  }

  /** The state just before a scalar that the text ends in or within. */
  predicate InScalar(s: string, st: State) {
    st.mode.Num? || st.mode.Lit? || (st.mode.After? && s != [] && s[|s| - 1] == 'e')
  }

  lemma ScalarStep(b: State, c: char)
    requires Fits(b) && c != ':' && c != '[' && c != ','
    requires var t := Step(b, c); t.mode.Num? || t.mode.Lit? || (t.mode.After? && c == 'e')
    ensures var t := Step(b, c);
            && (b.mode.Value? || b.mode.FirstItem? || b.mode.Num? || b.mode.Lit?)
            && (if t.mode.After? then b.mode.Lit? && t.stack == CloseValue(b.stack) else t.stack == b.stack)
  {
  }

  lemma {:induction false} BackToValue(s: string) returns (q: nat)
    requires Run(START, s).mode != Dead && InScalar(s, Run(START, s))
    ensures q < |s|
    ensures var t, st := Run(START, s[..q]), Run(START, s);
            && Fits(t) && (t.mode.Value? || t.mode.FirstItem?)
            && (if st.mode.After? then st.stack == CloseValue(t.stack) else st.stack == t.stack)
    ensures forall j, inArray :: q <= j < |s| ==> !IsSeparator(s[j], inArray)
    decreases |s|
  {
    hide Nested;
    RunTrace(s);
    var n := |s| - 1;
    RunSnoc(START, s);
    var b := Run(START, s[..n]);
    RunTrace(s[..n]);
    ScalarStep(b, s[n]);
    if b.mode.Value? || b.mode.FirstItem? {
      q := n;
    } else {
      q := BackToValue(s[..n]);
      assert s[..n][..q] == s[..q];
      assert forall j :: q <= j < n ==> s[..n][j] == s[j];
    }
  }

  /** After a scalar, or inside one, the cut always lands. */
  lemma ScalarCutLands(s: string)
    requires Run(START, s).mode != Dead && ErrorStack(s) != []
    requires InScalar(s, Run(START, s))
    ensures CutLands(s)
  {
    hide Run, Closing;
    var q := BackToValue(s);
    var t, stack := Run(START, s[..q]), ErrorStack(s);
    assert stack == t.stack || stack == CloseValue(t.stack);
    ClosingSkipsKey(t.stack);
    var inArray := Top(stack) == Some(Array);
    assert inArray == (Top(t.stack) == Some(Array));
    NoSeparatorBehind(s, q, inArray);
    BackToSeparator(s[..q]);
    var i := LastSeparator(s[..q], inArray).value;
    assert s[..q][..i + 1] == s[..i + 1];
  }

  // ----- Padding of a cut-off unicode escape

  /** A run inside a string. */
  function StrRun(x: StrState, t: string): Option<StrState>
    decreases |t|
  {
    if t == [] then Some(x)
    else match StrStep(x, t[0]) case None => None case Some(y) => StrRun(y, t[1..])
  }

  lemma StrRunCons(x: StrState, c: char, t: string)
    ensures StrRun(x, [c] + t) == match StrStep(x, c) case None => None case Some(y) => StrRun(y, t)
  {
    assert ([c] + t)[1..] == t;
  }

  lemma StrRunConcat(x: StrState, s: string, t: string)
    ensures StrRun(x, s + t) == match StrRun(x, s) case None => None case Some(y) => StrRun(y, t)
    decreases |s|
  {
    if s == [] {
      assert s + t == t;
    } else {
      assert (s + t)[1..] == s[1..] + t;
      match StrStep(x, s[0])
      case None =>
      case Some(y) => StrRunConcat(y, s[1..], t);
    }
  }

  lemma StrRunIsRun(isKey: bool, x: StrState, stack: seq<Elem>, t: string)
    requires NoQuotes(t)
    ensures Run(State(Str(isKey, x), stack), t)
         == match StrRun(x, t) case None => DEAD case Some(y) => State(Str(isKey, y), stack)
    decreases |t|
  {
    if t != [] {
      match StrStep(x, t[0])
      case None => DeadStays(t[1..]);
      case Some(y) => StrRunIsRun(isKey, y, stack, t[1..]);
    }
  }

  lemma TailLengthIs(s: string, t: string, n: nat)
    requires Suffix(s, t) && IsUnicodeTail(t) && |t| <= n <= 6
    ensures TailLength(s, n) == |t|
  {
    if n > |t| {
      if n <= |s| {
        var u := s[|s| - n..];
        assert u[n - |t|] == s[|s| - |t|..][0] == '\\';
        assert n - |t| >= 2 ==> u[2..][n - |t| - 2] == '\\';
      }
      TailLengthIs(s, t, n - 1);
    }
  }

  lemma NoTailBehindBackslash(s: string, n: nat)
    requires EndsInBackslash(s) && n <= 6
    ensures TailLength(s, n) == 0
  {
    if n >= 2 {
      if n <= |s| {
        var u := s[|s| - n..];
        assert u[n - 1] == '\\';
        assert n > 2 ==> u[2..][n - 3] == '\\';
      }
      NoTailBehindBackslash(s, n - 1);
    }
  }

  lemma ZerosCons(n: nat)
    requires n > 0
    ensures Zeros(n) == ['0'] + Zeros(n - 1)
  {
  }

  lemma ZerosRun(ds: string)
    requires DigitsFit(Unit(ds))
    ensures StrRun(Unit(ds), Zeros(4 - |ds|))
         == Some(if |ds| >= 2 && HighDigits(ds[0], ds[1]) then High(ds + Zeros(4 - |ds|)) else Plain)
    decreases 4 - |ds|
  {
    var n := 4 - |ds|;
    ZerosCons(n);
    StrRunCons(Unit(ds), '0', Zeros(n - 1));
    assert ds + (['0'] + Zeros(n - 1)) == (ds + ['0']) + Zeros(n - 1);
    if n > 1 {
      ZerosRun(ds + ['0']);
    } else {
      assert Zeros(0) == [] && ds + Zeros(1) == ds + ['0'];
    }
  }

  lemma LowRun(h: string, ds: string, t: string)
    requires |ds| <= 3 && t == (match |ds| case 0 => "dc00" case 1 => "c00" case 2 => "00" case _ => "0")
    requires |ds| == 1 ==> ds[0] == 'd' || ds[0] == 'D'
    ensures StrRun(Low(h, ds), t) == Some(Plain)
    decreases 4 - |ds|
  {
    if |ds| == 0 {
      assert t == ['d'] + "c00";
      StrRunCons(Low(h, ds), 'd', "c00");
      LowRun(h, ds + ['d'], "c00");
    } else if |ds| == 1 {
      assert t == ['c'] + "00";
      StrRunCons(Low(h, ds), 'c', "00");
      LowRun(h, ds + ['c'], "00");
    } else if |ds| == 2 {
      assert t == ['0'] + "0";
      StrRunCons(Low(h, ds), '0', "0");
      LowRun(h, ds + ['0'], "0");
    } else {
      assert t == ['0'] + [];
      StrRunCons(Low(h, ds), '0', []);
    }
  }

  lemma HighRun(h: string)
    ensures StrRun(High(h), "\\udc00") == Some(Plain)
    ensures StrRun(HighBack(h), "udc00") == Some(Plain)
  {
    assert "\\udc00" == ['\\'] + "udc00" && "udc00" == ['u'] + "dc00";
    StrRunCons(High(h), '\\', "udc00");
    StrRunCons(HighBack(h), 'u', "dc00");
    LowRun(h, [], "dc00");
  }

  /** The text ends in a backslash, a u, and two to four digits of which the first two are those of a high surrogate. */
  predicate EndsLikeHigh(s: string) {
    exists k: nat :: 2 <= k <= 4 && HighAt(s, k)
  }

  predicate HighAt(s: string, k: nat) {
    && 2 <= k && k + 2 <= |s| && s[|s| - k - 2] == '\\' && s[|s| - k - 1] == 'u'
    && AllHex(s[|s| - k..]) && HighDigits(s[|s| - k], s[|s| - k + 1])
  }

  /** What the code looks for from the end is just that. */
  lemma LooksHighIs(s: string)
    ensures LooksHigh(s) <==> EndsLikeHigh(s)
  {
    hide TailLength;
    var n := TailLength(s, 6);
    if LooksHigh(s) {
      TailLengthFinds(s, 6);
      var t := s[|s| - n..];
      assert t[2..] == s[|s| - (n - 2)..];
      assert t[0] == s[|s| - n] && t[1] == s[|s| - n + 1] && t[2] == s[|s| - n + 2] && t[3] == s[|s| - n + 3];
      assert HighAt(s, n - 2);
    }
    if k: nat :| 2 <= k <= 4 && HighAt(s, k) {
      var t := s[|s| - k - 2..];
      assert t[2..] == s[|s| - k..] && t[2] == s[|s| - k] && t[3] == s[|s| - k + 1];
      TailLengthIs(s, t, 6);
    }
  }

  /** The escape in progress is the first of a pair, but the text in front of it only looks like a high surrogate:
      its backslash is itself escaped. The padding then completes a lone low surrogate. */
  predicate FalseTail(s: string, x: StrState) {
    && x.Unit? && |x.digits| + 2 <= |s|
    && EndsLikeHigh(s[..|s| - 2 - |x.digits|])
    && (x.digits == [] || (|x.digits| == 1 && (x.digits[0] == 'd' || x.digits[0] == 'D')))
  }

  predicate FalseHigh(s: string) {
    var st := Run(START, s);
    st.mode.Str? && FalseTail(s, st.mode.s)
  }

  /** The text breaks off inside a UTF-8 character of a string. */
  predicate InsideChar(s: string) {
    var st := Run(START, s);
    st.mode.Str? && st.mode.s.Owed?
  }

  /** Nothing that the code adds continues the string. */
  predicate BlocksAt(s: string, x: StrState) {
    FalseTail(s, x) || x.Owed?
  }

  predicate Blocked(s: string) {
    var st := Run(START, s);
    st.mode.Str? && BlocksAt(s, st.mode.s)
  }

  lemma BlockedIs(s: string)
    ensures Blocked(s) <==> FalseHigh(s) || InsideChar(s)
  {
    hide Run, FalseTail;
  }

  lemma UnitTail(s: string, ds: string)
    requires StrTail(s, Unit(ds)) && DigitsFit(Unit(ds))
    ensures TailLength(s, 6) == 2 + |ds| && s[|s| - 2 - |ds|..] == "\\u" + ds
  {
    var t := "\\u" + ds;
    assert t[2..] == ds;
    TailLengthIs(s, t, 6);
  }

  lemma PaddingAfterUnit(s: string, ds: string)
    requires StrTail(s, Unit(ds)) && DigitsFit(Unit(ds))
    ensures StrRun(Unit(ds), UnicodePadding(s)) == if FalseTail(s, Unit(ds)) then None else Some(Plain)
  {
    hide StrTail, TailLength, LooksHigh, StrRun, EndsLikeHigh;
    UnitTail(s, ds);
    LooksHighIs(s[..|s| - 2 - |ds|]);
    ZerosRun(ds);
    var t, n := "\\u" + ds, 2 + |ds|;
    assert |ds| >= 2 ==> t[2] == ds[0] && t[3] == ds[1];
    if IsHighSurrogate(t) {
      HighRun(ds + Zeros(4 - |ds|));
      StrRunConcat(Unit(ds), Zeros(4 - |ds|), "\\udc00");
    } else if LooksHigh(s[..|s| - n]) && n == 2 {
      assert "dc00" == ['d'] + (['c'] + "00");
      StrRunCons(Unit(ds), 'd', ['c'] + "00");
      StrRunCons(Unit(ds + ['d']), 'c', "00");
    } else if LooksHigh(s[..|s| - n]) && n == 3 {
      assert "c00" == ['c'] + "00" && Zeros(2) == "00";
      StrRunCons(Unit(ds), 'c', "00");
      if ds[0] != 'd' && ds[0] != 'D' {
        ZerosRun(ds + ['c']);
      }
    }
  }

  lemma SuffixSplit(s: string, a: string, b: string)
    requires Suffix(s, a + b)
    ensures Suffix(s, b) && Suffix(s[..|s| - |b|], a)
  {
    var u, pre := s[|s| - |a + b|..], s[..|s| - |b|];
    assert u[|a|..] == b && u[..|a|] == a;
    assert s[|s| - |b|..] == u[|a|..];
    assert pre[|pre| - |a|..] == u[..|a|];
  }

  lemma LowPadding(s: string, h: string, ds: string)
    requires StrTail(s, Low(h, ds)) && DigitsFit(Low(h, ds))
    ensures UnicodePadding(s) == Completion(s, Low(h, ds))
  {
    hide TailLength, Suffix;
    var t, first := "\\u" + ds, "\\u" + h;
    assert t[2..] == ds && first[2..] == h;
    assert first + t == "\\u" + h + "\\u" + ds;
    SuffixSplit(s, first, t);
    SuffixOf(s, t);
    TailLengthIs(s, t, 6);
    var pre := s[..|s| - |t|];
    SuffixOf(pre, first);
    TailLengthIs(pre, first, 6);
    assert LooksHigh(pre);
    assert |ds| >= 2 ==> t[2] == ds[0] && t[3] == ds[1];
    assert !IsHighSurrogate(t);
  }

  lemma SuffixOf(s: string, t: string)
    requires Suffix(s, t)
    ensures |t| <= |s| && s[|s| - |t|..] == t
  {
  }

  /** A byte outside ASCII ends no escape. */
  lemma NoTailBehindByte(s: string, n: nat)
    requires s != [] && s[|s| - 1] as int >= 0x80 && n <= 6
    ensures TailLength(s, n) == 0
  {
    if n >= 2 {
      if n <= |s| {
        var u := s[|s| - n..];
        assert u[n - 1] as int >= 0x80;
        assert n > 2 ==> u[2..][n - 3] == u[n - 1];
      }
      NoTailBehindByte(s, n - 1);
    }
  }

  /** Inside a character only the bytes owed may come. */
  lemma OwedRefuses(x: StrState, c: char)
    requires x.Owed? && DigitsFit(x) && c as int < 0x80
    ensures StrStep(x, c).None?
  {
  }

  lemma PaddingAfterByte(s: string, x: StrState)
    requires StrTail(s, x) && DigitsFit(x) && x.Owed?
    ensures StrRun(x, UnicodePadding(s)) == None
  {
    hide TailLength, DigitsFit, StrRun;
    NoTailBehindByte(s, 6);
    OwedRefuses(x, 'u');
    assert "udc00" == ['u'] + "dc00";
    StrRunCons(x, 'u', "dc00");
  }

  lemma HighPadding(s: string, h: string)
    requires StrTail(s, High(h)) && DigitsFit(High(h))
    ensures UnicodePadding(s) == "\\udc00"
  {
    hide TailLength;
    var t := "\\u" + h;
    assert t[2..] == h && t[2] == h[0] && t[3] == h[1];
    TailLengthIs(s, t, 6);
    assert Zeros(0) + "\\udc00" == "\\udc00";
  }

  lemma HighBackEnds(s: string, h: string)
    requires StrTail(s, HighBack(h))
    ensures EndsInBackslash(s)
  {
  }

  /** The padding completes every cut-off escape except behind a false high surrogate, and no cut-off character. */
  lemma PaddingCompletes(s: string, x: StrState)
    requires StrTail(s, x) && DigitsFit(x) && !x.Plain? && !x.Back?
    ensures StrRun(x, UnicodePadding(s)) == if BlocksAt(s, x) then None else Some(Plain)
  {
    match x
    case Owed(_) => PaddingAfterByte(s, x);
    case Unit(ds) => PaddingAfterUnit(s, ds);
    case High(h) =>
      HighPadding(s, h);
      HighRun(h);
    case HighBack(h) =>
      PaddingIsCompletion(s, x);
      HighRun(h);
    case Low(h, ds) =>
      LowPadding(s, h, ds);
      assert Zeros(2) == "00" && Zeros(1) == "0";
      LowRun(h, ds, UnicodePadding(s));
  }

  /** What completes an escape: the second half of a pair behind the first, and zeros for the digits that are missing. */
  function Completion(s: string, x: StrState): string {
    match x
    case Unit(ds) =>
      if |ds| >= 2 && HighDigits(ds[0], ds[1]) then Missing(ds) + "\\udc00"
      else if |ds| == 1 && |s| >= 3 && EndsLikeHigh(s[..|s| - 3]) then "c00"
      else Missing(ds)
    case High(_) => "\\udc00"
    case HighBack(_) => "udc00"
    case Low(_, ds) => if |ds| == 0 then "dc00" else if |ds| == 1 then "c00" else Missing(ds)
    case _ => []
  }

  /** A zero for every digit up to the fourth. */
  function Missing(ds: string): string {
    if |ds| <= 4 then Zeros(4 - |ds|) else []
  }

  /** The padding, which the code finds from the last characters, is the one that the state of the string asks for. */
  lemma PaddingIsCompletion(s: string, x: StrState)
    requires StrTail(s, x) && DigitsFit(x) && !x.Plain? && !x.Back? && !BlocksAt(s, x)
    ensures UnicodePadding(s) == Completion(s, x)
  {
    hide StrTail, TailLength, LooksHigh, EndsLikeHigh;
    match x
    case Unit(ds) =>
      UnitTail(s, ds);
      LooksHighIs(s[..|s| - 2 - |ds|]);
      var t := "\\u" + ds;
      assert |ds| >= 2 ==> t[2] == ds[0] && t[3] == ds[1];
    case High(h) => HighPadding(s, h);
    case HighBack(h) =>
      assert EndsInBackslash(s) by { HighBackEnds(s, h); }
      NoTailBehindBackslash(s, 6);
    case Low(h, ds) => LowPadding(s, h, ds);
  }

  lemma PaddingHasNoQuotes(s: string)
    ensures NoQuotes(UnicodePadding(s))
  {
    hide TailLength, LooksHigh, IsHighSurrogate;
  }

  /** Outside strings there is no escape to pad. */
  lemma NoTailOutsideStrings(s: string)
    requires var m := Run(START, s).mode; !m.Str? && !m.Dead?
    ensures UnicodePadding(s) == "udc00"
  {
    hide Run, Nested, TailLength;
    var n := TailLength(s, 6);
    if n > 0 {
      TailLengthFinds(s, 6);
      var q, t := s[..|s| - n], s[|s| - n..];
      assert q + t == s;
      RunConcat(START, q, t);
      RunTrace(q);
      var b := Run(START, q);
      assert t == ['\\'] + t[1..];
      RunCons(b, '\\', t[1..]);
      assert NoQuotes(t[1..]) by {
        assert forall i :: 2 <= i < |t| ==> t[i] == t[2..][i - 2];
      }
      BackslashOnlyInStrings(b);
      StaysInString(Step(b, '\\'), t[1..]);
      assert false;
    }
  }

  lemma TailLengthFinds(s: string, n: nat)
    ensures var r := TailLength(s, n); r > 0 ==> IsUnicodeTail(s[|s| - r..])
  {
  }

  lemma BackslashOnlyInStrings(b: State)
    requires Fits(b)
    ensures var m := Step(b, '\\').mode; m.Str? || m.Dead?
  {
  }

  /** No state outside strings survives the padding. */
  lemma PaddingDies(s: string, t: string)
    requires var m := Run(START, s).mode; !m.Str? && !m.Dead?
    ensures !AcceptsFrom(Run(START, s), UnicodePadding(s) + t)
  {
    hide Run, Nested;
    NoTailOutsideStrings(s);
    RunTrace(s);
    var st := Run(START, s);
    var rest := "c00" + t;
    assert "udc00" + t == ['u'] + (['d'] + rest);
    RunCons(st, 'u', ['d'] + rest);
    UdDies(s, st);
    RunCons(Step(st, 'u'), 'd', rest);
    DeadStays(rest);
  }

  lemma UdDies(s: string, st: State)
    requires Trace(s, st) && Fits(st) && !st.mode.Str?
    ensures Step(Step(st, 'u'), 'd') == DEAD
  {
  }

  // ----- The branches, state by state

  ghost predicate Heals(s: string, m: string) {
    var h := Heal(s, m);
    h.Some? && Accepts(h.value.text)
  }

  /** The text is kept whole, with the dump marker behind it, and behind that the end of a value or of a key and a value,
      and the closers. */
  predicate Keeps(s: string, h: Option<Healed>, dumpMarker: string, isKey: bool) {
    h == Some(Join(s, dumpMarker, (if isKey then KEY_END else QUOTE) + Closing(ErrorStack(s))))
  }

  lemma NoQuotesIn(x: string, c: string)
    requires Closers(c) && NoQuotes(x)
    ensures NoQuotes(x + c)
  {
  }

  /** What ends an unfinished value string, and what does not. */
  lemma ValueStringBranches(x: StrState, stack: seq<Elem>)
    requires DigitsFit(x) && Nested(stack) && Top(stack) != Some(Object)
    ensures var st, c := State(Str(false, x), stack), Closing(stack);
            && !AcceptsFrom(st, "1" + c) && !AcceptsFrom(st, ": 1" + c) && !AcceptsFrom(st, [] + c) && !AcceptsFrom(st, ", 1" + c)
            && (AcceptsFrom(st, QUOTE + c) <==> x.Plain?)
            && (AcceptsFrom(st, "\\\"" + c) <==> x.Back?)
  {
    hide Run, Nested, Closing;
    var st, c := State(Str(false, x), stack), Closing(stack);
    var open := State(Str(false, Plain), stack);
    ClosingIsClosers(stack);
    NoQuotesIn("1", c);
    NoQuotesIn(": 1", c);
    NoQuotesIn([], c);
    NoQuotesIn(", 1", c);
    assert [] + c == c;
    StaysInString(st, "1" + c);
    StaysInString(st, ": 1" + c);
    StaysInString(st, [] + c);
    StaysInString(st, ", 1" + c);
    EndValueString(stack, []);
    assert [] + (QUOTE + c) == QUOTE + c;
    RunCons(st, '"', c);
    StaysInString(open, c);
    DeadStays(c);
    assert "\\\"" + c == ['\\'] + (['"'] + c);
    RunCons(st, '\\', ['"'] + c);
    RunCons(Step(st, '\\'), '"', c);
    DeadStays(['"'] + c);
  }

  lemma BackThenMarker(isKey: bool, stack: seq<Elem>, m: string, end: string)
    ensures Run(State(Str(isKey, Back), stack), ("\\" + m) + end) == Run(State(Str(isKey, Plain), stack), m + end)
  {
    hide Run;
    assert ("\\" + m) + end == ['\\'] + (m + end);
    RunCons(State(Str(isKey, Back), stack), '\\', m + end);
  }

  lemma PaddingThenMarker(s: string, isKey: bool, x: StrState, stack: seq<Elem>, m: string, end: string)
    requires StrTail(s, x) && DigitsFit(x) && !x.Plain? && !x.Back?
    ensures Run(State(Str(isKey, x), stack), (UnicodePadding(s) + m) + end)
         == if BlocksAt(s, x) then DEAD else Run(State(Str(isKey, Plain), stack), m + end)
  {
    hide Run, StrTail, DigitsFit, BlocksAt, UnicodePadding;
    var pad, st := UnicodePadding(s), State(Str(isKey, x), stack);
    PaddingCompletes(s, x);
    PaddingHasNoQuotes(s);
    StrRunIsRun(isKey, x, stack, pad);
    assert (pad + m) + end == pad + (m + end);
    RunConcat(st, pad, m + end);
    DeadStays(m + end);
  }

  /** The tests of the value-string branches. */
  lemma ValueStringTests(s: string)
    requires var md := Run(START, s).mode; md.Str? && !md.isKey
    ensures var st := Run(START, s);
            var x, c := st.mode.s, Closing(st.stack);
            && !Accepts(s + "1" + c) && !Accepts(s + ": 1" + c) && !Accepts(s + c) && !Accepts(s + ", 1" + c)
            && (Accepts(s + QUOTE + c) <==> x.Plain?)
            && (Accepts(s + "\\\"" + c) <==> x.Back?)
  {
    hide Run, Nested, Closing, StrTail, DigitsFit;
    RunTrace(s);
    var st := Run(START, s);
    var c := Closing(st.stack);
    ValueStringBranches(st.mode.s, st.stack);
    AcceptsAfter(s, "1", c);
    AcceptsAfter(s, ": 1", c);
    AcceptsAfter(s, [], c);
    assert s + [] + c == s + c;
    AcceptsAfter(s, ", 1", c);
    AcceptsAfter(s, QUOTE, c);
    AcceptsAfter(s, "\\\"", c);
  }

  /** The test of the padding branch, and what the branch yields. */
  lemma PaddingTest(s: string, m: string, e: string)
    requires var md := Run(START, s).mode; md.Str? && !md.s.Plain? && !md.s.Back?
    requires var st := Run(START, s);
             AcceptsFrom(State(Str(st.mode.isKey, Plain), st.stack), e) && AcceptsFrom(State(Str(st.mode.isKey, Plain), st.stack), m + e)
    ensures Accepts(s + UnicodePadding(s) + e) <==> !Blocked(s)
    ensures Accepts(Join(s, UnicodePadding(s) + m, e).text) <==> !Blocked(s)
  {
    hide Run, Nested, UnicodePadding, BlocksAt, StrTail, DigitsFit;
    RunTrace(s);
    var st, pad := Run(START, s), UnicodePadding(s);
    PaddingThenMarker(s, st.mode.isKey, st.mode.s, st.stack, m, e);
    PaddingThenMarker(s, st.mode.isKey, st.mode.s, st.stack, [], e);
    assert (pad + []) + e == pad + e && [] + e == e;
    AcceptsAfter(s, pad, e);
    JoinAccepts(s, pad + m, e);
  }

  /** What the value-string branches yield. */
  lemma ValueStringJoins(s: string, m: string)
    requires var md := Run(START, s).mode; md.Str? && !md.isKey
    requires PlainText(m)
    ensures var st := Run(START, s);
            var x, e := st.mode.s, QUOTE + Closing(st.stack);
            && (x.Plain? ==> Accepts(Join(s, m, e).text))
            && (x.Back? ==> Accepts(Join(s, "\\" + m, e).text) && EndsInBackslash(s))
            && (!x.Plain? && !x.Back? ==>
                  && (Accepts(s + UnicodePadding(s) + e) <==> !Blocked(s))
                  && (Accepts(Join(s, UnicodePadding(s) + m, e).text) <==> !Blocked(s)))
  {
    hide Run, Nested, Closing, StrTail, DigitsFit, UnicodePadding, Blocked;
    RunTrace(s);
    var st := Run(START, s);
    var x, stack, e := st.mode.s, st.stack, QUOTE + Closing(st.stack);
    EndValueString(stack, m);
    EndValueString(stack, []);
    assert [] + e == e;
    if x.Plain? {
      JoinAccepts(s, m, e);
    } else if x.Back? {
      BackThenMarker(false, stack, m, e);
      BackEndsInBackslash(s, x);
      JoinAccepts(s, "\\" + m, e);
    } else {
      PaddingTest(s, m, e);
    }
  }

  /** Healing inside the string value of a key. */
  lemma HealsKeyedString(s: string, m: string)
    requires var md := Run(START, s).mode; md.Str? && !md.isKey
    requires Top(ErrorStack(s)) == Some(Key) && GoodMarker(m)
    ensures Run(START, s).mode.s.Plain? ==> Keeps(s, Heal(s, m), m, false)
    ensures Run(START, s).mode.s.Back? ==> Keeps(s, Heal(s, m), "\\" + m, false)
    ensures var x := Run(START, s).mode.s;
            !x.Plain? && !x.Back? && !Blocked(s) ==> Keeps(s, Heal(s, m), UnicodePadding(s) + m, false)
    ensures Blocked(s) ==> Heal(s, m) == CutBack(s, Top(ErrorStack(s)) == Some(Array), Closing(ErrorStack(s)), m)
    ensures Heals(s, m) <==> !Blocked(s) || CutLands(s)
  {
    hide Run, Nested, Closing, LastNonSp, CutLands, UnicodePadding, CutBack, Accepts, EndsInBackslash, MaybeNumber, BlocksAt;
    hide HealArray, HealObject;
    RunTrace(s);
    LiveHasLast(s);
    ValueStringTests(s);
    ValueStringJoins(s, m);
    CutExact(s, m);
    if Run(START, s).mode.s.Plain? || Run(START, s).mode.s.Back? {
      PlainIsNotBlocked(s);
    }
    var c, pad := Closing(ErrorStack(s)), UnicodePadding(s);
    assert s + pad + QUOTE + c == s + pad + (QUOTE + c);
  }

  /** Healing inside a string in an array. */
  lemma HealsItemString(s: string, m: string)
    requires var md := Run(START, s).mode; md.Str? && !md.isKey
    requires Top(ErrorStack(s)) == Some(Array) && GoodMarker(m)
    ensures Run(START, s).mode.s.Plain? ==> Keeps(s, Heal(s, m), m, false)
    ensures Run(START, s).mode.s.Back? ==> Keeps(s, Heal(s, m), "\\" + m, false)
    ensures var x := Run(START, s).mode.s;
            !x.Plain? && !x.Back? && !Blocked(s) ==> Keeps(s, Heal(s, m), UnicodePadding(s) + m, false)
    ensures Blocked(s) ==> Heal(s, m) == CutBack(s, Top(ErrorStack(s)) == Some(Array), Closing(ErrorStack(s)), m)
    ensures Heals(s, m) <==> !Blocked(s) || CutLands(s)
  {
    hide Run, Nested, Closing, LastNonSp, CutLands, UnicodePadding, CutBack, Accepts, EndsInBackslash, MaybeNumber, BlocksAt;
    hide HealKey, HealObject;
    RunTrace(s);
    LiveHasLast(s);
    ValueStringTests(s);
    ValueStringJoins(s, m);
    CutExact(s, m);
    if Run(START, s).mode.s.Plain? || Run(START, s).mode.s.Back? {
      PlainIsNotBlocked(s);
    }
    var c, pad := Closing(ErrorStack(s)), UnicodePadding(s);
    assert s + pad + QUOTE + c == s + pad + (QUOTE + c);
  }

  /** Healing inside a value string. */
  lemma HealsValueString(s: string, m: string)
    requires var md := Run(START, s).mode; md.Str? && !md.isKey
    requires ErrorStack(s) != [] && GoodMarker(m)
    ensures Run(START, s).mode.s.Plain? ==> Keeps(s, Heal(s, m), m, false)
    ensures Run(START, s).mode.s.Back? ==> Keeps(s, Heal(s, m), "\\" + m, false)
    ensures var x := Run(START, s).mode.s;
            !x.Plain? && !x.Back? && !Blocked(s) ==> Keeps(s, Heal(s, m), UnicodePadding(s) + m, false)
    ensures Blocked(s) ==> Heal(s, m) == CutBack(s, Top(ErrorStack(s)) == Some(Array), Closing(ErrorStack(s)), m)
    ensures Heals(s, m) <==> !Blocked(s) || CutLands(s)
  {
    hide Run, Nested, CutLands, Blocked, Heal, Heals;
    RunTrace(s);
    var stack := ErrorStack(s);
    var e := stack[|stack| - 1];
    assert e == Object || e == Array || e == Key;
    if e == Key { HealsKeyedString(s, m); } else { HealsItemString(s, m); }
  }

  lemma LiveHasLast(s: string)
    requires Run(START, s).mode != Dead && ErrorStack(s) != []
    ensures LastNonSp(s).Some?
  {
    if LastNonSp(s).None? {
      SpacesOnlyStart(s);
    }
  }

  lemma SpacesOnlyStart(s: string)
    requires LastNonSp(s).None?
    ensures Run(START, s) == START
    decreases |s|
  {
    if s != [] {
      RunSnoc(START, s);
      SpacesOnlyStart(s[..|s| - 1]);
    }
  }

  lemma PlainIsNotBlocked(s: string)
    requires var md := Run(START, s).mode; md.Str? ==> md.s.Plain? || md.s.Back?
    ensures !Blocked(s)
  {
  }

  lemma BackEndsInBackslash(s: string, x: StrState)
    requires StrTail(s, x) && x.Back?
    ensures EndsInBackslash(s) && LastNonSp(s) == Some('\\')
  {
  }

  /** What ends an unfinished key string, and what does not. */
  lemma KeyStringBranches(x: StrState, stack: seq<Elem>)
    requires DigitsFit(x) && Nested(stack) && Top(stack) == Some(Object)
    ensures var st, c := State(Str(true, x), stack), Closing(stack);
            && !AcceptsFrom(st, [] + c) && !AcceptsFrom(st, ",\"\": 1" + c)
            && (!x.Back? ==> !AcceptsFrom(st, "\"\": 1" + c))
            && (AcceptsFrom(st, KEY_END + c) <==> x.Plain?)
            && (AcceptsFrom(st, "\\\": 1" + c) <==> x.Back?)
  {
    hide Run, Nested, Closing, NoQuotes, Closers;
    var st, c := State(Str(true, x), stack), Closing(stack);
    ClosingIsClosers(stack);
    NoQuotesIn([], c);
    StaysInString(st, [] + c);
    TwoQuotes(x, stack, c);
    KeyEnds(x, stack);
  }

  /** Two quotes in a row: the first ends the key, the second is no colon. */
  lemma TwoQuotes(x: StrState, stack: seq<Elem>, c: string)
    requires DigitsFit(x)
    ensures var st := State(Str(true, x), stack);
            !AcceptsFrom(st, ",\"\": 1" + c) && (!x.Back? ==> !AcceptsFrom(st, "\"\": 1" + c))
  {
    hide Run;
    var st, one := State(Str(true, x), stack), ": 1" + c;
    assert "\"\": 1" + c == ['"'] + (['"'] + one);
    RunCons(st, '"', ['"'] + one);
    RunCons(Step(st, '"'), '"', one);
    assert ",\"\": 1" + c == [','] + (['"'] + (['"'] + one));
    RunCons(st, ',', ['"'] + (['"'] + one));
    RunCons(Step(st, ','), '"', ['"'] + one);
    RunCons(Step(Step(st, ','), '"'), '"', one);
    DeadStays(one);
  }

  lemma KeyEnds(x: StrState, stack: seq<Elem>)
    requires DigitsFit(x) && Nested(stack) && Top(stack) == Some(Object)
    ensures var st, c := State(Str(true, x), stack), Closing(stack);
            && (AcceptsFrom(st, KEY_END + c) <==> x.Plain?)
            && (AcceptsFrom(st, "\\\": 1" + c) <==> x.Back?)
  {
    hide Run, Nested, Closing;
    var st, c := State(Str(true, x), stack), Closing(stack);
    var open, one := State(Str(true, Plain), stack), ": 1" + c;
    ClosingIsClosers(stack);
    NoQuotesIn(": 1", c);
    StaysInString(open, one);
    EndKeyString(stack, []);
    assert [] + (KEY_END + c) == KEY_END + c;
    assert KEY_END + c == ['"'] + one;
    RunCons(st, '"', one);
    assert "\\\": 1" + c == ['\\'] + (['"'] + one);
    RunCons(st, '\\', ['"'] + one);
    RunCons(Step(st, '\\'), '"', one);
    RunCons(open, '"', one);
    DeadStays(one);
    DeadStays(['"'] + one);
  }

  /** The tests of the key-string branches. */
  lemma KeyStringTests(s: string)
    requires var md := Run(START, s).mode; md.Str? && md.isKey
    ensures var st := Run(START, s);
            var x, c := st.mode.s, Closing(st.stack);
            && !Accepts(s + c) && !Accepts(s + ",\"\": 1" + c)
            && (!x.Back? ==> !Accepts(s + "\"\": 1" + c))
            && (Accepts(s + KEY_END + c) <==> x.Plain?)
            && (Accepts(s + "\\\": 1" + c) <==> x.Back?)
  {
    hide Run, Nested, Closing, StrTail, DigitsFit;
    RunTrace(s);
    var st := Run(START, s);
    var c := Closing(st.stack);
    KeyStringBranches(st.mode.s, st.stack);
    AcceptsAfter(s, [], c);
    assert s + [] + c == s + c;
    AcceptsAfter(s, "\"\": 1", c);
    AcceptsAfter(s, ",\"\": 1", c);
    AcceptsAfter(s, KEY_END, c);
    AcceptsAfter(s, "\\\": 1", c);
  }

  /** What the key-string branches yield. */
  lemma KeyStringJoins(s: string, m: string)
    requires var md := Run(START, s).mode; md.Str? && md.isKey
    requires PlainText(m)
    ensures var st := Run(START, s);
            var x, e := st.mode.s, KEY_END + Closing(st.stack);
            && (x.Plain? ==> Accepts(Join(s, m, e).text))
            && (x.Back? ==> Accepts(Join(s, "\\" + m, e).text) && EndsInBackslash(s) && LastNonSp(s) == Some('\\'))
            && (!x.Plain? && !x.Back? ==>
                  && (Accepts(s + UnicodePadding(s) + e) <==> !Blocked(s))
                  && (Accepts(Join(s, UnicodePadding(s) + m, e).text) <==> !Blocked(s)))
  {
    hide Run, Nested, Closing, StrTail, DigitsFit, UnicodePadding, Blocked;
    RunTrace(s);
    var st := Run(START, s);
    var x, stack, e := st.mode.s, st.stack, KEY_END + Closing(st.stack);
    EndKeyString(stack, m);
    EndKeyString(stack, []);
    assert [] + e == e;
    if x.Plain? {
      JoinAccepts(s, m, e);
    } else if x.Back? {
      BackThenMarker(true, stack, m, e);
      BackEndsInBackslash(s, x);
      JoinAccepts(s, "\\" + m, e);
    } else {
      PaddingTest(s, m, e);
    }
  }

  /** Healing inside a key string. */
  lemma HealsKeyString(s: string, m: string)
    requires var md := Run(START, s).mode; md.Str? && md.isKey
    requires ErrorStack(s) != [] && GoodMarker(m)
    ensures Run(START, s).mode.s.Plain? ==> Keeps(s, Heal(s, m), m, true)
    ensures Run(START, s).mode.s.Back? ==> Keeps(s, Heal(s, m), "\\" + m, true)
    ensures var x := Run(START, s).mode.s;
            !x.Plain? && !x.Back? && !Blocked(s) ==> Keeps(s, Heal(s, m), UnicodePadding(s) + m, true)
    ensures Blocked(s) ==> Heal(s, m) == CutBack(s, Top(ErrorStack(s)) == Some(Array), Closing(ErrorStack(s)), m)
    ensures Heals(s, m) <==> !Blocked(s) || CutLands(s)
  {
    hide Run, Nested, Closing, LastNonSp, CutLands, UnicodePadding, CutBack, Accepts, EndsInBackslash, MaybeNumber, BlocksAt;
    RunTrace(s);
    LiveHasLast(s);
    KeyStringTests(s);
    KeyStringJoins(s, m);
    CutExact(s, m);
    if Run(START, s).mode.s.Plain? || Run(START, s).mode.s.Back? {
      PlainIsNotBlocked(s);
    }
    var c, pad := Closing(ErrorStack(s)), UnicodePadding(s);
    assert s + pad + KEY_END + c == s + pad + (KEY_END + c);
  }

  // ----- Outside strings

  /** A quote or a backslash kills every state in which no string can begin. */
  lemma NoStringHere(s: string, t: string)
    requires var md := Run(START, s).mode; md.Num? || md.Lit? || md.After? || md.Colon?
    ensures var st := Run(START, s); !AcceptsFrom(st, ['"'] + t) && !AcceptsFrom(st, ['\\'] + t)
  {
    hide Run, Nested;
    RunTrace(s);
    var st := Run(START, s);
    assert Step(st, '"') == DEAD && Step(st, '\\') == DEAD;
    DiesAt(st, '"', t);
    DiesAt(st, '\\', t);
  }

  /** The string branches of all three functions are closed in those states. */
  lemma NoStringBranches(s: string, c: string)
    requires var md := Run(START, s).mode; md.Num? || md.Lit? || md.After? || md.Colon?
    ensures !Accepts(s + QUOTE + c) && !Accepts(s + "\\\"" + c) && !Accepts(s + UnicodePadding(s) + QUOTE + c)
    ensures !Accepts(s + KEY_END + c) && !Accepts(s + "\\\": 1" + c) && !Accepts(s + UnicodePadding(s) + KEY_END + c)
    ensures !Accepts(s + "\"\": 1" + c)
  {
    hide Run, UnicodePadding, Accepts, AcceptsFrom;
    NoStringBranch(s, '"', [], c);
    NoStringBranch(s, '\\', "\"", c);
    NoStringBranch(s, '"', ": 1", c);
    NoStringBranch(s, '\\', "\": 1", c);
    NoStringBranch(s, '"', "\": 1", c);
    assert ['"'] + [] == QUOTE && ['\\'] + "\"" == "\\\"" && ['"'] + ": 1" == KEY_END;
    assert ['\\'] + "\": 1" == "\\\": 1" && ['"'] + "\": 1" == "\"\": 1";
    NoPaddingBranch(s, QUOTE, c);
    NoPaddingBranch(s, KEY_END, c);
  }

  lemma NoStringBranch(s: string, a: char, b: string, c: string)
    requires var md := Run(START, s).mode; md.Num? || md.Lit? || md.After? || md.Colon?
    requires a == '"' || a == '\\'
    ensures !Accepts(s + ([a] + b) + c)
  {
    hide Run;
    AcceptsAfter(s, [a] + b, c);
    assert ([a] + b) + c == [a] + (b + c);
    NoStringHere(s, b + c);
  }

  lemma NoPaddingBranch(s: string, e: string, c: string)
    requires var md := Run(START, s).mode; md.Num? || md.Lit? || md.After? || md.Colon?
    ensures !Accepts(s + UnicodePadding(s) + e + c)
  {
    hide Run, UnicodePadding;
    var pad := UnicodePadding(s);
    assert s + pad + e + c == s + (pad + (e + c));
    RunConcat(START, s, pad + (e + c));
    PaddingDies(s, e + c);
  }

  /** Where a value or a key was about to come, the first branch fits. */
  lemma HealsAtStart(s: string, m: string)
    requires var md := Run(START, s).mode; md.Value? || md.FirstItem? || md.FirstKey? || md.NextKey?
    requires ErrorStack(s) != [] && GoodMarker(m)
    ensures Keeps(s, Heal(s, m), QUOTE + m, Run(START, s).mode.FirstKey? || Run(START, s).mode.NextKey?)
    ensures Heals(s, m)
  {
    hide Run, Nested, Closing, LastNonSp, UnicodePadding, CutBack, MaybeNumber;
    RunTrace(s);
    var st, c := Run(START, s), Closing(ErrorStack(s));
    if st.mode.Value? || st.mode.FirstItem? {
      NewNumber(st);
      AcceptsAfter(s, "1", c);
      NewValueString(st, m);
      JoinAccepts(s, QUOTE + m, QUOTE + c);
    } else {
      NewPair(st, []);
      assert (QUOTE + []) + (KEY_END + c) == "\"\": 1" + c;
      AcceptsAfter(s, "\"\": 1", c);
      if st.mode.FirstKey? {
        EmptyObjectCloses(st);
        AcceptsAfter(s, [], c);
        assert s + [] + c == s + c && [] + c == c;
      }
      NewPair(st, m);
      JoinAccepts(s, QUOTE + m, KEY_END + c);
    }
  }

  lemma EmptyObjectCloses(st: State)
    requires Fits(st) && st.mode.FirstKey?
    ensures AcceptsFrom(st, Closing(st.stack))
  {
    hide Run, Nested;
    ClosingUnfold(st.stack);
    RunCons(st, '}', Closing(EndContainer(st.stack)));
    EndContainerFits(st.stack);
    CloseAll(EndContainer(st.stack));
  }

  /** After a key, a colon and the marker. */
  lemma HealsAfterKey(s: string, m: string)
    requires Run(START, s).mode.Colon? && ErrorStack(s) != [] && GoodMarker(m)
    ensures Keeps(s, Heal(s, m), ":\"" + m, false)
    ensures Heals(s, m)
  {
    hide Run, Nested, Closing, LastNonSp, UnicodePadding, CutBack;
    RunTrace(s);
    var st, c := Run(START, s), Closing(ErrorStack(s));
    KeyThenNumber(st.stack);
    AcceptsAfter(s, ": 1", c);
    var v := State(Value, st.stack);
    NewValueString(v, m);
    JoinAccepts(s, ":\"" + m, QUOTE + c);
    assert (":\"" + m) + (QUOTE + c) == [':'] + ((QUOTE + m) + (QUOTE + c));
    RunCons(st, ':', (QUOTE + m) + (QUOTE + c));
  }

  /** Behind a finished value, a comma is accepted unless the value may be an unfinished number. */
  lemma CommaAfterValue(stack: seq<Elem>, m: string)
    requires Nested(stack) && stack != [] && Top(stack) != Some(Key) && PlainText(m)
    ensures Top(stack) == Some(Array) ==>
              && AcceptsFrom(State(After, stack), ", 1" + Closing(stack))
              && AcceptsFrom(State(After, stack), (",\"" + m) + (QUOTE + Closing(stack)))
    ensures Top(stack) == Some(Object) ==>
              && AcceptsFrom(State(After, stack), (",\"" + m) + (KEY_END + Closing(stack)))
  {
    hide Run, Nested, Closing;
    var st, c := State(After, stack), Closing(stack);
    if Top(stack) == Some(Array) {
      var v := State(Value, stack);
      NewNumber(v);
      assert ", 1" + c == [','] + ([' '] + ("1" + c));
      RunCons(st, ',', [' '] + ("1" + c));
      RunCons(v, ' ', "1" + c);
      NewValueString(v, m);
      assert (",\"" + m) + (QUOTE + c) == [','] + ((QUOTE + m) + (QUOTE + c));
      RunCons(st, ',', (QUOTE + m) + (QUOTE + c));
    } else {
      var e := stack[|stack| - 1];
      assert e == Object || e == Array || e == Key;
      var k := State(NextKey, stack);
      NewPair(k, m);
      assert (",\"" + m) + (KEY_END + c) == [','] + ((QUOTE + m) + (KEY_END + c));
      RunCons(st, ',', (QUOTE + m) + (KEY_END + c));
    }
  }

  lemma AfterValueTests(s: string, m: string)
    requires Run(START, s).mode.After? && ErrorStack(s) != [] && PlainText(m)
    ensures var stack := ErrorStack(s);
            var c := Closing(stack);
            && (Top(stack) == Some(Array) || Top(stack) == Some(Object))
            && (Top(stack) == Some(Array) ==> Accepts(s + ", 1" + c) && Accepts(Join(s, ",\"" + m, QUOTE + c).text))
            && (Top(stack) == Some(Object) ==> Accepts(s + ",\"\": 1" + c) && Accepts(Join(s, ",\"" + m, KEY_END + c).text))
            && LastNonSp(s).Some? && LastNonSp(s).value !in {',', '[', '{', ':'}
  {
    hide Run, Nested, Closing, LastNonSp;
    RunTrace(s);
    var st, c := Run(START, s), Closing(ErrorStack(s));
    var e := st.stack[|st.stack| - 1];
    assert e == Object || e == Array || e == Key;
    CommaAfterValue(st.stack, []);
    CommaAfterValue(st.stack, m);
    AcceptsAfter(s, ", 1", c);
    AcceptsAfter(s, ",\"\": 1", c);
    assert (",\"" + []) + (KEY_END + c) == ",\"\": 1" + c;
    JoinAccepts(s, ",\"" + m, QUOTE + c);
    JoinAccepts(s, ",\"" + m, KEY_END + c);
  }

  lemma HealsAfterValue(s: string, m: string)
    requires Run(START, s).mode.After? && ErrorStack(s) != [] && GoodMarker(m)
    ensures s != [] && (s[|s| - 1] != 'e' ==> Keeps(s, Heal(s, m), ",\"" + m, Top(ErrorStack(s)) == Some(Object)))
    ensures s[|s| - 1] == 'e' ==>
              Heal(s, m) == CutBack(s, Top(ErrorStack(s)) == Some(Array), Closing(ErrorStack(s)), m) && CutLands(s)
    ensures Heals(s, m)
  {
    hide Run, Nested, Closing, LastNonSp, UnicodePadding, CutBack, CutLands, Accepts, MaybeNumber, EndsInBackslash;
    NoStringBranches(s, Closing(ErrorStack(s)));
    NotANumberThere(s);
    AfterValueTests(s, m);
    CutExact(s, m);
    if s[|s| - 1] == 'e' {
      ScalarCutLands(s);
    }
  }

  /** A text that ends in a finished value looks like a number only if it ends in the letter e of true or false. */
  lemma NotANumberThere(s: string)
    requires Run(START, s).mode.After?
    ensures s != [] && (MaybeNumber(s) <==> s[|s| - 1] == 'e')
  {
    RunTrace(s);
    if !IsWs(s[|s| - 1]) {
      LastOfNonSpace(s);
    }
  }

  lemma NumberLooksLikeOne(s: string)
    requires var md := Run(START, s).mode; md.Num? && md.n.Complete()
    ensures MaybeNumber(s)
    ensures LastNonSp(s) == Some(s[|s| - 1]) && IsDigit(s[|s| - 1])
  {
    RunTrace(s);
    LastOfNonSpace(s);
  }

  /** Inside or right after a number, and inside a literal, the code cuts back. */
  lemma HealsInScalar(s: string, m: string)
    requires var md := Run(START, s).mode; md.Num? || md.Lit?
    requires ErrorStack(s) != [] && GoodMarker(m)
    ensures Heal(s, m) == CutBack(s, Top(ErrorStack(s)) == Some(Array), Closing(ErrorStack(s)), m) && CutLands(s)
    ensures Heals(s, m)
  {
    hide Run, Nested, Closing, LastNonSp, UnicodePadding, CutBack, CutLands, MaybeNumber, Accepts, AcceptsFrom;
    RunTrace(s);
    var st, stack := Run(START, s), ErrorStack(s);
    var c := Closing(stack);
    NoStringBranches(s, c);
    ScalarCutLands(s);
    CutExact(s, m);
    LastOfNonSpace(s);
    ScalarThenComma(s, st, c);
    ErrorStackNested(s);
    AcceptsAfter(s, ", 1", c);
    AcceptsAfter(s, ": 1", c);
    if st.mode.Num? && st.mode.n.Complete() {
      NumberLooksLikeOne(s);
    } else {
      AcceptsAfter(s, ",\"\": 1", c);
    }
  }

  lemma ScalarThenComma(s: string, st: State, c: string)
    requires Trace(s, st) && Fits(st) && (st.mode.Num? || st.mode.Lit?)
    ensures !AcceptsFrom(st, ": 1" + c)
    ensures !(st.mode.Num? && st.mode.n.Complete()) ==> !AcceptsFrom(st, ", 1" + c) && !AcceptsFrom(st, ",\"\": 1" + c)
  {
    hide Run, Nested;
    assert ": 1" + c == [':'] + (" 1" + c) && ", 1" + c == [','] + (" 1" + c) && ",\"\": 1" + c == [','] + ("\"\": 1" + c);
    assert Step(st, ':') == DEAD;
    DiesAt(st, ':', " 1" + c);
    if !(st.mode.Num? && st.mode.n.Complete()) {
      assert Step(st, ',') == DEAD;
      DiesAt(st, ',', " 1" + c);
      DiesAt(st, ',', "\"\": 1" + c);
    }
  }

  // ----- The theorems

  /** Main result: a truncated text with an open container that can still become JSON is healed to an accepted text,
      if and only if it breaks off neither in an escape behind a false high surrogate nor inside a UTF-8 character, or the
      cut of the last resort lands. */
  lemma HealingExact(s: string, m: string)
    requires Run(START, s).mode != Dead && ErrorStack(s) != [] && GoodMarker(m)
    ensures Heals(s, m) <==> (!FalseHigh(s) && !InsideChar(s)) || CutLands(s)
  {
    hide Heals, CutLands, Blocked, FalseHigh, InsideChar;
    BlockedIs(s);
    var md := Run(START, s).mode;
    if md.Str? {
      if md.isKey { HealsKeyString(s, m); } else { HealsValueString(s, m); }
    } else {
      PlainIsNotBlocked(s);
      if md.Colon? {
        HealsAfterKey(s, m);
      } else if md.After? {
        HealsAfterValue(s, m);
      } else if md.Num? || md.Lit? {
        HealsInScalar(s, m);
      } else {
        HealsAtStart(s, m);
      }
    }
  }

  /** What is put between the text and the marker, by where the text breaks off. */
  function Bridge(s: string): string {
    match Run(START, s).mode
    case Colon => ":\""
    case After => ",\""
    case Str(_, Plain) => []
    case Str(_, Back) => "\\"
    case Str(_, x) => Completion(s, x)
    case _ => QUOTE
  }

  /** The marker becomes a key, which then needs a value. */
  predicate MarksKey(s: string) {
    match Run(START, s).mode
    case FirstKey | NextKey => true
    case Str(isKey, _) => isKey
    case After => Top(ErrorStack(s)) == Some(Object)
    case _ => false
  }

  /** The text is cut back: a number or a literal may be half read, or nothing continues the string. */
  predicate IsCutBack(s: string) {
    var md := Run(START, s).mode;
    md.Num? || md.Lit? || (md.After? && s != [] && s[|s| - 1] == 'e') || FalseHigh(s) || InsideChar(s)
  }

  /** Main result, the healed text: the branches that the code finds by trial yield what the state of the text asks for.
      The text is kept whole, unless it has to be cut back. */
  lemma HealedText(s: string, m: string)
    requires Run(START, s).mode != Dead && ErrorStack(s) != [] && GoodMarker(m)
    ensures Heal(s, m) ==
            if IsCutBack(s) then CutBack(s, Top(ErrorStack(s)) == Some(Array), Closing(ErrorStack(s)), m)
            else Some(Join(s, Bridge(s) + m, (if MarksKey(s) then KEY_END else QUOTE) + Closing(ErrorStack(s))))
  {
    hide Heal, Heals, CutLands, Blocked, FalseHigh, InsideChar, Completion, ErrorStack, CutBack, Closing, Run, Join;
    BlockedIs(s);
    var md := Run(START, s).mode;
    if md.Str? {
      BridgeOfString(s, m);
      if md.isKey { HealsKeyString(s, m); } else { HealsValueString(s, m); }
    } else {
      PlainIsNotBlocked(s);
      if md.Colon? {
        HealsAfterKey(s, m);
      } else if md.After? {
        HealsAfterValue(s, m);
      } else if md.Num? || md.Lit? {
        HealsInScalar(s, m);
      } else {
        HealsAtStart(s, m);
      }
    }
  }

  lemma BridgeOfString(s: string, m: string)
    requires Run(START, s).mode.Str?
    ensures var x := Run(START, s).mode.s;
            && (x.Plain? ==> Bridge(s) + m == m)
            && (x.Back? ==> Bridge(s) + m == "\\" + m)
            && (!x.Plain? && !x.Back? && !Blocked(s) ==> Bridge(s) == UnicodePadding(s))
  {
    hide Run, Nested, StrTail, DigitsFit, Completion, UnicodePadding, BlocksAt;
    RunTrace(s);
    var x := Run(START, s).mode.s;
    if !x.Plain? && !x.Back? && !Blocked(s) {
      PaddingIsCompletion(s, x);
    }
  }

  /** Every proper prefix of a JSON text that is inside a container is healed, false high surrogates and cut-off characters
      aside. */
  lemma PrefixesHeal(text: string, n: nat, m: string)
    requires Accepts(text) && n <= |text| && GoodMarker(m)
    requires ErrorStack(text[..n]) != [] && !FalseHigh(text[..n]) && !InsideChar(text[..n])
    ensures Heals(text[..n], m)
  {
    assert text == text[..n] + text[n..];
    AliveBefore(START, text[..n], text[n..]);
    HealingExact(text[..n], m);
  }

  /** The text is that of an object or an array, which opens at `k`. */
  predicate OpensAt(text: string, k: nat) {
    k < |text| && (text[k] == '[' || text[k] == '{') && forall i :: 0 <= i < k ==> IsWs(text[i])
  }

  lemma {:induction false} SpacesBefore(t: string)
    requires forall i :: 0 <= i < |t| ==> IsWs(t[i])
    ensures Run(START, t) == START
  {
    if t != [] {
      SpacesBefore(t[1..]);
    }
  }

  /** Inside the outermost container, or behind it. */
  predicate Inside(st: State) {
    st.stack != [] || st == State(After, [])
  }

  lemma CloseValueInside(stack: seq<Elem>)
    requires Nested(stack) && stack != []
    ensures CloseValue(stack) != []
  {
  }

  lemma StaysInside(st: State, c: char)
    requires Fits(st) && Inside(st) && Step(st, c).mode != Dead
    ensures Inside(Step(st, c))
  {
    hide Nested;
    if st.stack != [] {
      CloseValueInside(st.stack);
    }
  }

  lemma {:induction false} RunInside(st: State, t: string)
    requires Fits(st) && Inside(st) && Run(st, t).mode != Dead && (st.mode.Dead? ==> st == DEAD)
    ensures Inside(Run(st, t))
    decreases |t|
  {
    hide Fits, Inside, Step;
    if t != [] {
      assert t == [t[0]] + t[1..];
      AliveBefore(st, [t[0]], t[1..]);
      RunOne(st, t[0]);
      StaysInside(st, t[0]);
      StepFits(st, t[0]);
      RunInside(Step(st, t[0]), t[1..]);
    }
  }

  /** A prefix that reaches the opening bracket is inside the container or complete. */
  lemma InsideOrComplete(text: string, k: nat, n: nat)
    requires Accepts(text) && OpensAt(text, k) && k < n <= |text|
    ensures Run(START, text[..n]).mode != Dead && (ErrorStack(text[..n]) == [] ==> Accepts(text[..n]))
  {
    hide Run, Nested;
    var s := text[..n];
    assert text == s + text[n..];
    AliveBefore(START, s, text[n..]);
    SpacesBefore(text[..k]);
    var rest := text[k + 1..n];
    assert s == text[..k] + ([text[k]] + rest);
    RunConcat(START, text[..k], [text[k]] + rest);
    RunCons(START, text[k], rest);
    var st := Step(START, text[k]);
    StartFits();
    StepFits(START, text[k]);
    RunInside(st, rest);
    RunFits(st, rest);
    InsideEnd(Run(st, rest));
  }

  lemma StartFits()
    ensures Fits(START)
  {
  }

  lemma InsideEnd(st: State)
    requires Fits(st) && Inside(st)
    ensures Finish(st).stack == [] ==> Finish(st) == State(After, [])
  {
    hide Nested;
    if st.stack != [] {
      CloseValueInside(st.stack);
    }
  }

  /** Without a \u there is no false high surrogate. */
  lemma NoUnicodeNotFalse(s: string)
    requires !Contains(s, "\\u")
    ensures !FalseHigh(s)
  {
    hide Run, EndsLikeHigh;
    RunTrace(s);
    var st := Run(START, s);
    if st.mode.Str? && st.mode.s.Unit? {
      EscapeInText(s, st.mode.s.digits);
    }
  }

  lemma EscapeInText(s: string, ds: string)
    requires Suffix(s, "\\u" + ds)
    ensures Contains(s, "\\u")
  {
    var i := |s| - 2 - |ds|;
    assert s[i..i + 2] == s[i..][..2] == "\\u";
    assert OccursAt(s, "\\u", i);
  }

  /** A JSON text goes on inside a character with a byte that continues it. */
  lemma CharGoesOn(text: string, n: nat)
    requires Accepts(text) && n <= |text| && InsideChar(text[..n])
    ensures n < |text| && 0x80 <= text[n] as int <= 0xBF
  {
    hide Run, Nested;
    var s, rest := text[..n], text[n..];
    assert text == s + rest;
    RunTrace(s);
    RunConcat(START, s, rest);
    OwedIsOpen(Run(START, s), rest);
    assert rest[0] == text[n];
  }

  lemma OwedIsOpen(st: State, rest: string)
    requires st.mode.Str? && st.mode.s.Owed? && DigitsFit(st.mode.s) && Finish(Run(st, rest)) == State(After, [])
    ensures rest != [] && 0x80 <= rest[0] as int <= 0xBF
  {
    if rest != [] {
      var t := rest[1..];
      assert rest == [rest[0]] + t;
      RunCons(st, rest[0], t);
      DeadStays(t);
    }
  }

  /** The prefix ends between two characters. */
  predicate AtBoundary(text: string, n: nat)
    requires n <= |text|
  {
    n == |text| || !(0x80 <= text[n] as int <= 0xBF)
  }

  /** Every prefix of a JSON object or array that reaches its opening bracket, ends between two characters and has no \u in
      it is complete or is healed. */
  lemma PlainPrefixesHeal(text: string, k: nat, n: nat, m: string)
    requires Accepts(text) && OpensAt(text, k) && k < n <= |text| && GoodMarker(m)
    requires !Contains(text[..n], "\\u") && AtBoundary(text, n)
    ensures Accepts(text[..n]) || Heals(text[..n], m)
  {
    hide Run, Heals, Contains, FalseHigh, InsideChar;
    InsideOrComplete(text, k, n);
    NoUnicodeNotFalse(text[..n]);
    if InsideChar(text[..n]) {
      CharGoesOn(text, n);
    } else if ErrorStack(text[..n]) != [] {
      PrefixesHeal(text, n, m);
    }
  }

  // ----- Inputs that are not healed

  /** The beginning of an object whose only value is cut off inside its last character. */
  const HALF_CHAR: string := ['{', '"', 'a', '"', ':', '"', 'x', ':', ' ', 0xC3 as char]

  lemma OpenValueRun(rest: string)
    ensures Run(START, ['{', '"', 'a', '"', ':', '"', 'x', ':'] + rest) == Run(State(Str(false, Plain), [Object, Key]), rest)
  {
    hide Run;
    var t7 := [':'] + rest;
    var t6 := ['x'] + t7;
    var t5 := ['"'] + t6;
    var t4 := [':'] + t5;
    var t3 := ['"'] + t4;
    var t2 := ['a'] + t3;
    var t1 := ['"'] + t2;
    assert ['{', '"', 'a', '"', ':', '"', 'x', ':'] + rest == ['{'] + t1;
    assert [] + [Object] == [Object] && [Object] + [Key] == [Object, Key];
    RunCons(START, '{', t1);
    RunCons(State(FirstKey, [Object]), '"', t2);
    RunCons(State(Str(true, Plain), [Object]), 'a', t3);
    RunCons(State(Str(true, Plain), [Object]), '"', t4);
    RunCons(State(Colon, [Object, Key]), ':', t5);
    RunCons(State(Value, [Object, Key]), '"', t6);
    RunCons(State(Str(false, Plain), [Object, Key]), 'x', t7);
    RunCons(State(Str(false, Plain), [Object, Key]), ':', rest);
  }

  lemma HalfCharRun()
    ensures Run(START, HALF_CHAR) == State(Str(false, Owed([(0x80, 0xBF)])), [Object, Key])
    ensures Run(START, HALF_CHAR[..8]) == State(Str(false, Plain), [Object, Key])
  {
    hide Run;
    var c, st := 0xC3 as char, State(Str(false, Plain), [Object, Key]);
    var pre: string := ['{', '"', 'a', '"', ':', '"', 'x', ':'];
    assert HALF_CHAR == pre + ([' '] + [c]) && HALF_CHAR[..8] == pre + [];
    OpenValueRun([' '] + [c]);
    OpenValueRun([]);
    RunCons(st, ' ', [c]);
    RunOne(st, c);
    NothingRun(st);
  }

  lemma NothingRun(st: State)
    ensures Run(st, []) == st
  {
  }

  /** Inside a character the property is false of the code too: the cut lands on the colon inside the string. */
  lemma InsideCharFails(m: string)
    requires GoodMarker(m)
    ensures InsideChar(HALF_CHAR) && ErrorStack(HALF_CHAR) == [Object, Key] && !Heals(HALF_CHAR, m)
    ensures Accepts(HALF_CHAR + [0xA9 as char, '"', '}'])
  {
    hide Run, Heals;
    var s := HALF_CHAR;
    HalfCharRun();
    assert s[7] == ':' && |s| == 10;
    assert forall j :: 8 <= j < |s| ==> !IsSeparator(s[j], false);
    NoSeparatorBehind(s, 8, false);
    assert LastSeparator(s[..8], false) == Some(7);
    HealingExact(s, m);
    HalfCharCompletes();
  }

  lemma HalfCharCompletes()
    ensures Accepts(HALF_CHAR + [0xA9 as char, '"', '}'])
  {
    hide Run;
    HalfCharRun();
    var c := 0xA9 as char;
    var st := State(Str(false, Owed([(0x80, 0xBF)])), [Object, Key]);
    var s1, s2, s3 := State(Str(false, Plain), [Object, Key]), State(After, [Object]), State(After, []);
    assert [c, '"', '}'] == [c] + (['"'] + ['}']);
    RunConcat(START, HALF_CHAR, [c, '"', '}']);
    RunCons(st, c, ['"'] + ['}']);
    RunCons(s1, '"', ['}']);
    assert [Object, Key][..1] == [Object] && [Object][..0] == [];
    RunOne(s2, '}');
  }

  const EXAMPLE := "[\"[\\\\ud8\\u"

  lemma ExampleString(tail: string)
    ensures StrRun(Plain, ['[', '\\', '\\', 'u', 'd', '8', '\\', 'u'] + tail) == StrRun(Unit([]), tail)
  {
    hide StrRun;
    var b1 := ['u'] + tail;
    var b2 := ['\\'] + b1;
    var b3 := ['8'] + b2;
    var b4 := ['d'] + b3;
    var b5 := ['u'] + b4;
    var b6 := ['\\'] + b5;
    var b7 := ['\\'] + b6;
    assert ['[', '\\', '\\', 'u', 'd', '8', '\\', 'u'] + tail == ['['] + b7;
    StrRunCons(Plain, '[', b7);
    StrRunCons(Plain, '\\', b6);
    StrRunCons(Back, '\\', b5);
    StrRunCons(Plain, 'u', b4);
    StrRunCons(Plain, 'd', b3);
    StrRunCons(Plain, '8', b2);
    StrRunCons(Plain, '\\', b1);
    StrRunCons(Back, 'u', tail);
  }

  lemma ExampleRun()
    ensures Run(START, EXAMPLE) == State(Str(false, Unit([])), [Array])
    ensures Run(START, EXAMPLE[..3]) == State(Str(false, Plain), [Array])
  {
    hide Run, Step;
    var b: string := ['[', '\\', '\\', 'u', 'd', '8', '\\', 'u'];
    assert EXAMPLE == ['['] + (['"'] + b) && EXAMPLE[..3] == ['['] + (['"'] + ['[']);
    OpensString(b);
    OpensString(['[']);
    StrRunIsRun(false, Plain, [Array], b);
    ExampleString([]);
    assert b + [] == b;
    RunOne(State(Str(false, Plain), [Array]), '[');
    assert Step(State(Str(false, Plain), [Array]), '[') == State(Str(false, Plain), [Array]) by { PlainStays(); }
  }

  lemma OpensString(b: string)
    ensures Run(START, ['['] + (['"'] + b)) == Run(State(Str(false, Plain), [Array]), b)
  {
    hide Run;
    assert [] + [Array] == [Array];
    RunCons(START, '[', ['"'] + b);
    RunCons(State(FirstItem, [Array]), '"', b);
  }

  lemma PlainStays()
    ensures Step(State(Str(false, Plain), [Array]), '[') == State(Str(false, Plain), [Array])
  {
  }

  lemma ExampleLooksHigh()
    ensures EndsLikeHigh(EXAMPLE[..8])
  {
    var pre := EXAMPLE[..8];
    assert pre[6..] == "d8";
    assert HighAt(pre, 2);
  }

  /** Without its condition the property is false of the code: in `["[\\ud8\u` the backslash before ud8 is itself
      escaped, the padding completes a lone low surrogate, and the cut lands on the bracket inside the string. */
  lemma FalseHighFails(m: string)
    requires GoodMarker(m)
    ensures Run(START, EXAMPLE).mode != Dead && ErrorStack(EXAMPLE) == [Array] && !Heals(EXAMPLE, m)
  {
    hide Run, Heals, EndsLikeHigh;
    var s := EXAMPLE;
    ExampleRun();
    ExampleLooksHigh();
    assert s[2] == '[' && |s| == 10;
    assert forall j :: 3 <= j < |s| ==> !IsSeparator(s[j], true);
    NoSeparatorBehind(s, 3, true);
    assert LastSeparator(s[..3], true) == Some(2);
    HealingExact(s, m);
  }

  /** At top level only an unfinished string is healed, and it is kept. */
  lemma TopLevelExact(s: string, m: string)
    requires Run(START, s).mode != Dead && ErrorStack(s) == [] && s != [] && GoodMarker(m)
    ensures Heals(s, m) <==> var md := Run(START, s).mode; md.Str? && (md.s.Plain? || md.s.Back?)
    ensures Heal(s, m) == if Heals(s, m) then Some(Join(s, Bridge(s) + m, QUOTE)) else None
  {
    hide Run, LastNonSp, Accepts, Bridge;
    RunTrace(s);
    var st := Run(START, s);
    assert s + QUOTE + [] == s + QUOTE && s + "\\\"" + [] == s + "\\\"";
    if st.mode.Str? {
      BridgeOfString(s, m);
      ValueStringTests(s);
      ValueStringJoins(s, m);
      assert QUOTE + [] == QUOTE;
    } else if st.mode.Value? {
      FreshQuote(s);
    } else {
      NoStringBranches(s, []);
    }
  }

  lemma FreshQuote(s: string)
    requires Run(START, s).mode.Value?
    ensures !Accepts(s + QUOTE) && !Accepts(s + "\\\"")
  {
    hide Run;
    var st := Run(START, s);
    AcceptsAfter(s, QUOTE, []);
    AcceptsAfter(s, "\\\"", []);
    assert s + QUOTE + [] == s + QUOTE && s + "\\\"" + [] == s + "\\\"";
    assert QUOTE + [] == ['"'] + [] && "\\\"" + [] == ['\\'] + QUOTE;
    RunCons(st, '"', []);
    StaysInString(Step(st, '"'), []);
    DiesAt(st, '\\', QUOTE);
  }
}

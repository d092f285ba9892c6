/** Cutting the dump of a healed value at the dump marker gives back the truncated text. */
module JsonDump {
  import opened Text
  import opened JsonText
  import opened JsonString
  import opened JsonPartial
  import opened JsonHealing
  import opened JsonValue

  predicate IsCompact(s: string) {
    Compact(START, s) == s
  }

  /** What has been read of the open string: all of it, but for a backslash that waits for its letter. */
  function OpenString(d: Dom, s: StrState): string {
    if s.Back? && d.token != [] then d.token[..|d.token| - 1] else d.token
  }

  /** The text is in the library's own format: its finished tokens are as the library writes them, no object repeats a
      key, and so far the open string is as the library writes it, unless it breaks off in an escape or a character. */
  predicate Canonical(num: string -> string, s: string) {
    var d, md := BuildAll(num, EMPTY_DOM, START, s), Run(START, s).mode;
    IsCompact(s) && FineText(num, s) && (md.Str? && (md.s.Plain? || md.s.Back?) ==> AsWritten(OpenString(d, md.s)))
  }

  // ----- The text up to the marker

  lemma CompactCons(st: State, c: char, t: string)
    requires !IsWs(c) || st.mode.Str?
    ensures Compact(st, [c] + t) == [c] + Compact(Step(st, c), t)
  {
    assert ([c] + t)[1..] == t;
  }

  lemma CompactPrefix(s: string, n: nat)
    requires IsCompact(s) && n <= |s|
    ensures Compact(START, s[..n]) == s[..n]
  {
    assert s == s[..n] + s[n..];
    CompactConcat(START, s[..n], s[n..]);
    var a, b := Compact(START, s[..n]), Compact(Run(START, s[..n]), s[n..]);
    assert |a| + |b| == |s|;
    assert a == (a + b)[..n];
  }

  lemma CompactPlain(isKey: bool, stack: seq<Elem>, m: string)
    requires PlainText(m)
    ensures Compact(State(Str(isKey, Plain), stack), m) == m
    decreases |m|
  {
    if m != [] {
      CompactPlain(isKey, stack, m[1..]);
    }
  }

  /** A string opened by a quote keeps the marker. */
  lemma CompactQuoted(st: State, m: string)
    requires PlainText(m) && Step(st, '"').mode.Str? && Step(st, '"').mode.s.Plain?
    ensures Compact(st, QUOTE + m) == QUOTE + m
  {
    CompactCons(st, '"', m);
    CompactPlain(Step(st, '"').mode.isKey, Step(st, '"').stack, m);
  }

  lemma CompactInBack(st: State, m: string)
    requires PlainText(m) && st.mode.Str?
    ensures st.mode.s.Back? ==> Compact(st, "\\" + m) == "\\" + m
  {
    if st.mode.s.Back? {
      CompactCons(st, '\\', m);
      CompactPlain(st.mode.isKey, st.stack, m);
    }
  }

  lemma CompactBehind(st: State, c: char, m: string)
    requires PlainText(m) && !IsWs(c)
    requires var t := Step(Step(st, c), '"').mode; t.Str? && t.s.Plain?
    ensures Compact(st, [c, '"'] + m) == [c, '"'] + m
  {
    assert [c, '"'] + m == [c] + (QUOTE + m);
    CompactCons(st, c, QUOTE + m);
    CompactQuoted(Step(st, c), m);
  }

  // ----- The cut

  /** The dump marker follows the whole text and does not begin earlier by overlapping its end. */
  ghost predicate Whole(s: string, h: Healed) {
    s + h.dumpMarker <= h.text && forall j: nat :: j < |s| ==> !OccursAt(s + h.dumpMarker, h.dumpMarker, j)
  }

  /** Cutting `d` at the first dump marker gives a prefix of `s`, all of it where it can. */
  ghost predicate CutIn(d: string, s: string, h: Healed) {
    var k := Find(d, h.dumpMarker, 0);
    k.Some? && d[..k.value] <= s && (Whole(s, h) ==> d[..k.value] == s)
  }

  lemma CompactAround(s: string, n: nat, h: Healed) returns (rest: string)
    requires IsCompact(s) && n <= |s| && s[..n] + h.dumpMarker <= h.text
    requires Compact(Run(START, s[..n]), h.dumpMarker) == h.dumpMarker
    ensures Compact(START, h.text) == s[..n] + h.dumpMarker + rest
  {
    hide Run, Compact;
    var pre, dm := s[..n], h.dumpMarker;
    var end := h.text[|pre + dm|..];
    assert h.text == (pre + dm) + end;
    CompactConcat(START, pre + dm, end);
    CompactConcat(START, pre, dm);
    CompactPrefix(s, n);
    rest := Compact(Run(START, pre + dm), end);
  }

  lemma FindNoLater(d: string, pre: string, dm: string, rest: string)
    requires d == pre + dm + rest
    ensures var k := Find(d, dm, 0);
            k.Some? && k.value <= |pre| && d[..k.value] == pre[..k.value] && OccursAt(pre + dm, dm, k.value)
  {
    hide Find;
    assert d[|pre|..|pre| + |dm|] == dm;
    FindFirst(d, dm, 0);
    assert OccursAt(d, dm, |pre|);
    var k := Find(d, dm, 0).value;
    assert pre + dm <= d;
    OccursInPrefix(pre + dm, d, dm, k);
  }

  /** If the text up to `n` and the marker behind it survive, the cut recovers the text. */
  lemma CutAt(s: string, n: nat, h: Healed)
    requires IsCompact(s) && n <= |s| && s[..n] + h.dumpMarker <= h.text
    requires Compact(Run(START, s[..n]), h.dumpMarker) == h.dumpMarker
    ensures CutIn(Compact(START, h.text), s, h)
  {
    hide Run, Compact, Find;
    var rest := CompactAround(s, n, h);
    var d, dm := Compact(START, h.text), h.dumpMarker;
    FindNoLater(d, s[..n], dm, rest);
    var k := Find(d, dm, 0).value;
    assert s[..n][..k] == s[..k];
    if Whole(s, h) {
      assert OccursAt(s + dm, dm, k) by {
        assert h.text[k..k + |dm|] == (s[..n] + dm)[k..k + |dm|];
        assert (s + dm)[k..k + |dm|] == h.text[k..k + |dm|];
      }
      assert k == |s|;
    }
  }

  // ----- The tokens of the healed text

  lemma DeadFine(num: string -> string, d: Dom, st: State, t: string)
    requires st.mode.Dead?
    ensures FineFrom(num, d, st, t) && Run(st, t).mode.Dead?
    decreases |t|
  {
    if t != [] {
      DeadFine(num, Build(num, d, st, t[0]), Step(st, t[0]), t[1..]);
    }
  }

  /** Closers end no token. */
  lemma {:induction false} ClosersFine(num: string -> string, d: Dom, st: State, t: string)
    requires (st.mode.After? || st.mode.Colon? || st.mode.Dead?) && Closers(t)
    ensures FineFrom(num, d, st, t) && !Run(st, t).mode.Num?
    decreases |t|
  {
    hide Build;
    if st.mode.Dead? {
      DeadFine(num, d, st, t);
    } else if t != [] {
      ClosersFine(num, Build(num, d, st, t[0]), Step(st, t[0]), t[1..]);
    }
  }

  /** The open string is as written, and if it is a key it is a new one. */
  predicate Ready(d: Dom, st: State) {
    && st.mode.Str? && st.mode.s.Plain? && AsWritten(d.token)
    && (st.mode.isKey && d.frames != [] && Last(d.frames).ObjFrame? ==> !HasMember(Last(d.frames).members, Unescape(d.token)))
  }

  lemma FineCons(num: string -> string, d: Dom, st: State, c: char, t: string)
    ensures FineFrom(num, d, st, [c] + t) <==> Fine(num, d, st, c) && FineFrom(num, Build(num, d, st, c), Step(st, c), t)
    ensures Run(st, [c] + t) == Run(Step(st, c), t)
    ensures BuildAll(num, d, st, [c] + t) == BuildAll(num, Build(num, d, st, c), Step(st, c), t)
  {
    assert ([c] + t)[1..] == t;
  }

  lemma QuoteFine(num: string -> string, d: Dom, st: State, closing: string)
    requires Ready(d, st) && Closers(closing)
    ensures FineFrom(num, d, st, QUOTE + closing) && !Run(st, QUOTE + closing).mode.Num?
  {
    hide Build, FineFrom, Run, AsWritten, HasMember;
    FineCons(num, d, st, '"', closing);
    ClosersFine(num, Build(num, d, st, '"'), Step(st, '"'), closing);
  }

  lemma KeyEndFine(num: string -> string, d: Dom, st: State, closing: string)
    requires Ready(d, st) && Closers(closing) && closing != [] && num("1") == "1"
    ensures FineFrom(num, d, st, KEY_END + closing) && !Run(st, KEY_END + closing).mode.Num?
  {
    hide FineFrom, Run, AsWritten, HasMember, Build, BuildAll;
    var t := [' '] + (['1'] + closing);
    assert KEY_END + closing == ['"'] + ([':'] + t);
    FineCons(num, d, st, '"', [':'] + t);
    var d1, s1 := Build(num, d, st, '"'), Step(st, '"');
    FineCons(num, d1, s1, ':', t);
    if st.mode.isKey {
      AfterColonFine(num, Build(num, d1, s1, ':'), Step(s1, ':'), closing);
    } else {
      BehindValueDies(num, d1, s1, t);
    }
  }

  lemma AfterColonFine(num: string -> string, d: Dom, st: State, closing: string)
    requires st.mode.Value? && Closers(closing) && closing != [] && num("1") == "1"
    ensures FineFrom(num, d, st, [' '] + (['1'] + closing)) && !Run(st, [' '] + (['1'] + closing)).mode.Num?
  {
    hide FineFrom, Run, BuildAll, AddValue;
    FineCons(num, d, st, ' ', ['1'] + closing);
    FineCons(num, d, st, '1', closing);
    OneFine(num, d.(token := "1"), State(Num(Int), st.stack), closing);
  }

  lemma BehindValueDies(num: string -> string, d: Dom, st: State, t: string)
    requires st.mode.After?
    ensures Step(st, ':') == DEAD && FineFrom(num, Build(num, d, st, ':'), DEAD, t) && Run(DEAD, t).mode.Dead?
  {
    DeadFine(num, Build(num, d, st, ':'), DEAD, t);
  }

  /** The number one, ended by a closer. */
  lemma OneFine(num: string -> string, d: Dom, st: State, closing: string)
    requires st.mode == Num(Int) && d.token == "1" && num("1") == "1" && Closers(closing) && closing != []
    ensures FineFrom(num, d, st, closing) && !Run(st, closing).mode.Num?
  {
    hide Build, FineFrom, Run;
    var c, rest := closing[0], closing[1..];
    assert closing == [c] + rest;
    FineCons(num, d, st, c, rest);
    ClosersFine(num, Build(num, d, st, c), Step(st, c), rest);
  }

  // ----- The marker

  lemma PlainIsNoEscapes(m: string)
    requires PlainText(m)
    ensures NoEscapes(m)
  {
  }

  /** Plain text goes into the open string. */
  lemma {:induction false} PlainInto(num: string -> string, d: Dom, st: State, m: string)
    requires PlainText(m) && st.mode.Str? && st.mode.s.Plain?
    ensures FineFrom(num, d, st, m) && Run(st, m) == st && BuildAll(num, d, st, m) == d.(token := d.token + m)
    decreases |m|
  {
    if m == [] {
      assert d.token + [] == d.token;
    } else {
      assert m == [m[0]] + m[1..];
      var e := d.(token := d.token + [m[0]]);
      PlainInto(num, e, st, m[1..]);
      assert d.token + [m[0]] + m[1..] == d.token + m;
    }
  }

  /** What the marker leaves: a string that ends in it, in the same frames. */
  ghost predicate Marked(num: string -> string, d: Dom, st: State, dm: string, m: string, isKey: bool) {
    var e, t := BuildAll(num, d, st, dm), Run(st, dm);
    && FineFrom(num, d, st, dm)
    && t.mode == Str(isKey, Plain) && e.frames == d.frames && AsWritten(e.token)
    && exists y: string :: Unescape(e.token) == y + m
  }

  lemma MarkedIn(num: string -> string, d: Dom, st: State, m: string)
    requires PlainText(m) && st.mode.Str? && st.mode.s.Plain? && AsWritten(d.token)
    ensures Marked(num, d, st, m, m, st.mode.isKey)
  {
    hide BuildAll, FineFrom, Run, AsWritten, Unescape;
    PlainInto(num, d, st, m);
    PlainIsNoEscapes(m);
    WrittenMore(d.token, m);
  }

  lemma MarkedBack(num: string -> string, d: Dom, st: State, m: string)
    requires PlainText(m) && st.mode.Str? && st.mode.s.Back? && d.token != [] && d.token[|d.token| - 1] == '\\'
    requires AsWritten(d.token[..|d.token| - 1])
    ensures Marked(num, d, st, "\\" + m, m, st.mode.isKey)
  {
    hide BuildAll, FineFrom, Run, AsWritten, Unescape;
    var t0 := d.token[..|d.token| - 1];
    var e := Build(num, d, st, '\\');
    assert e.token == t0 + "\\\\";
    FineCons(num, d, st, '\\', m);
    WrittenBackslash(t0);
    var s1 := Step(st, '\\');
    MarkedIn(num, e, s1, m);
  }

  lemma MarkedNew(num: string -> string, d: Dom, st: State, m: string)
    requires PlainText(m) && (st.mode.Value? || st.mode.FirstItem? || st.mode.FirstKey? || st.mode.NextKey?)
    ensures Marked(num, d, st, QUOTE + m, m, st.mode.FirstKey? || st.mode.NextKey?)
  {
    hide BuildAll, FineFrom, Run, AsWritten, Unescape;
    FineCons(num, d, st, '"', m);
    NothingRead();
    MarkedIn(num, d.(token := []), Step(st, '"'), m);
  }

  lemma MarkedBehind(num: string -> string, d: Dom, st: State, c: char, m: string)
    requires PlainText(m) && Fine(num, d, st, c) && Build(num, d, st, c) == d
    requires var md := Step(st, c).mode; md.Value? || md.NextKey?
    ensures Marked(num, d, st, [c, '"'] + m, m, Step(st, c).mode.NextKey?)
  {
    hide BuildAll, FineFrom, Run, AsWritten, Unescape;
    assert [c, '"'] + m == [c] + (QUOTE + m);
    FineCons(num, d, st, c, QUOTE + m);
    MarkedNew(num, d, Step(st, c), m);
  }

  // ----- A new key

  lemma ContainsWithin(a: string, m: string, b: string)
    ensures Contains(a + m + b, m)
  {
    var s := a + m + b;
    assert s[|a|..|a| + |m|] == m;
    assert OccursAt(s, m, |a|);
  }

  lemma ContainsMore(s: string, m: string, a: string, b: string)
    requires Contains(s, m)
    ensures Contains(a + s + b, m)
  {
    var i :| 0 <= i <= |s| && OccursAt(s, m, i);
    var t := a + s + b;
    assert t[|a| + i..|a| + i + |m|] == s[i..i + |m|];
    assert OccursAt(t, m, |a| + i);
  }

  lemma InQuoted(y: string, m: string)
    requires PlainText(m)
    ensures Contains(Quoted(y + m), m)
  {
    hide Contains, Escape;
    PlainIsNoEscapes(m);
    EscapeConcat(y, m);
    EscapePlain(m);
    QuotedText(Escape(y), m);
    ContainsWithin("\"" + Escape(y), m, "\"");
  }

  lemma QuotedText(a: string, m: string)
    ensures "\"" + (a + m) + "\"" == ("\"" + a) + m + "\""
  {
  }

  lemma InMember(y: string, v: Json, m: string)
    requires PlainText(m)
    ensures Contains(DumpMember((y + m, v)), m)
  {
    hide Contains, Quoted, DumpJson;
    InQuoted(y, m);
    ContainsMore(Quoted(y + m), m, [], ":" + DumpJson(v));
    assert [] + Quoted(y + m) + (":" + DumpJson(v)) == Quoted(y + m) + ":" + DumpJson(v);
  }

  lemma {:induction false} InMembers(ms: Members, y: string, m: string)
    requires PlainText(m) && HasMember(ms, y + m)
    ensures Contains(DumpMembers(ms), m)
    decreases |ms|
  {
    hide Contains, DumpMember;
    var i :| 0 <= i < |ms| && ms[i].0 == y + m;
    var n := |ms| - 1;
    InMember(y, ms[i].1, m);
    assert ms[i] == (y + m, ms[i].1);
    if n > 0 {
      if i == n {
        ContainsMore(DumpMember(ms[n]), m, DumpMembers(ms[..n]) + ",", []);
        assert DumpMembers(ms[..n]) + "," + DumpMember(ms[n]) + [] == DumpMembers(ms);
      } else {
        assert ms[..n][i] == ms[i];
        InMembers(ms[..n], y, m);
        ContainsMore(DumpMembers(ms[..n]), m, [], "," + DumpMember(ms[n]));
        assert [] + DumpMembers(ms[..n]) + ("," + DumpMember(ms[n])) == DumpMembers(ms);
      }
    }
  }

  lemma KeyIsInHead(fr: Frame, y: string, m: string)
    requires PlainText(m) && fr.ObjFrame? && HasMember(fr.members, y + m)
    ensures Contains(Head(fr), m)
  {
    hide Contains, DumpMembers, HasMember;
    InMembers(fr.members, y, m);
    ContainsMore(DumpMembers(fr.members), m, "{", []);
    NoMore("{" + DumpMembers(fr.members));
  }

  lemma HeadOfAwaiting(fr: Frame) returns (rest: string)
    ensures Awaiting(fr) == Head(fr) + rest
  {
    hide Head, Quoted;
    rest := (if IsEmpty(fr) then [] else ",") + (if fr.ObjFrame? && fr.key.Some? then Quoted(fr.key.value) + ":" else []);
  }

  /** A key of the innermost object that ends in the marker stands in the text. */
  lemma KeyIsInText(d: Dom, mode: Mode, y: string, m: string)
    requires PlainText(m) && d.frames != [] && Last(d.frames).ObjFrame? && HasMember(Last(d.frames).members, y + m)
    requires mode.Str? || mode.FirstKey? || mode.NextKey? || mode.After?
    ensures Contains(TextOf(d, mode), m)
  {
    hide Contains, HasMember, Head, Awaiting, OpenText;
    var fr, front := Last(d.frames), OpenText(Front(d.frames));
    KeyIsInHead(fr, y, m);
    OpenSnoc(d.frames);
    if mode.After? {
      ContainsMore(Head(fr), m, front, []);
      NoMore(front + Head(fr));
    } else {
      var rest := HeadOfAwaiting(fr);
      var more := if mode.Str? then "\"" + d.token else [];
      ContainsMore(Head(fr), m, front, rest + more);
      Regroup(front, Head(fr), rest, more);
      ThreeTexts(OpenText(d.frames), "\"", d.token);
      NoMore(OpenText(d.frames));
    }
  }

  lemma Regroup(a: string, b: string, c: string, e: string)
    ensures a + b + (c + e) == a + (b + c) + e
  {
  }

  // ----- All together

  /** The state and the frames after the text up to `n`. */
  lemma Before(num: string -> string, s: string, n: nat)
    requires Canonical(num, s) && Run(START, s).mode != Dead && n <= |s|
    ensures var d, st := BuildAll(num, EMPTY_DOM, START, s[..n]), Run(START, s[..n]);
            && st.mode != Dead && Fits(st) && InStep(d, st) && FineText(num, s[..n]) && TextOf(d, st.mode) == s[..n]
  {
    hide Run, BuildAll, FineFrom, Compact, Fits, InStep, TextOf, AsWritten;
    assert s == s[..n] + s[n..];
    FineConcat(num, EMPTY_DOM, START, s[..n], s[n..]);
    AliveBefore(START, s[..n], s[n..]);
    StartInStep();
    ReadText(num, EMPTY_DOM, START, s[..n]);
    RunFits(START, s[..n]);
    CompactPrefix(s, n);
    assert [] + s[..n] == s[..n];
  }

  /** A key that the marker ends is a new one. */
  lemma NewKey(num: string -> string, s: string, n: nat, dm: string, m: string, isKey: bool)
    requires Canonical(num, s) && Run(START, s).mode != Dead && n <= |s| && PlainText(m) && !Contains(s, m)
    requires var d, st := BuildAll(num, EMPTY_DOM, START, s[..n]), Run(START, s[..n]);
             Marked(num, d, st, dm, m, isKey) && (isKey ==> st.mode.Str? || st.mode.FirstKey? || st.mode.NextKey? || st.mode.After?)
    ensures var d, st := BuildAll(num, EMPTY_DOM, START, s[..n]), Run(START, s[..n]);
            Ready(BuildAll(num, d, st, dm), Run(st, dm))
  {
    hide Run, BuildAll, FineFrom, Fits, InStep, TextOf, AsWritten, Contains, HasMember, Canonical, Unescape;
    var d, st := BuildAll(num, EMPTY_DOM, START, s[..n]), Run(START, s[..n]);
    Before(num, s, n);
    var y: string :| Unescape(BuildAll(num, d, st, dm).token) == y + m;
    if isKey && d.frames != [] && Last(d.frames).ObjFrame? && HasMember(Last(d.frames).members, y + m) {
      KeyIsInText(d, st.mode, y, m);
      InLonger(s, n, m);
    }
  }

  /** Behind the marker the tokens end as they should. */
  lemma EndFine(num: string -> string, d: Dom, st: State, stack: seq<Elem>, end: string)
    requires Ready(d, st) && num("1") == "1"
    requires end == QUOTE + Closing(stack) || (Closing(stack) != [] && end == KEY_END + Closing(stack))
    ensures FineFrom(num, d, st, end) && !Run(st, end).mode.Num?
  {
    hide Run, FineFrom, Closing, Ready;
    ClosingIsClosers(stack);
    if end == QUOTE + Closing(stack) { QuoteFine(num, d, st, Closing(stack)); } else { KeyEndFine(num, d, st, Closing(stack)); }
  }

  /** If the marker leaves a string in which it stands at the end, the healed text has fine tokens. */
  lemma HealedFine(num: string -> string, s: string, n: nat, dm: string, m: string, isKey: bool, end: string)
    requires Canonical(num, s) && Run(START, s).mode != Dead && n <= |s| && PlainText(m) && !Contains(s, m) && num("1") == "1"
    requires var d, st := BuildAll(num, EMPTY_DOM, START, s[..n]), Run(START, s[..n]);
             Marked(num, d, st, dm, m, isKey) && (isKey ==> st.mode.Str? || st.mode.FirstKey? || st.mode.NextKey? || st.mode.After?)
    requires var c := Closing(ErrorStack(s)); end == QUOTE + c || (c != [] && end == KEY_END + c)
    ensures FineText(num, s[..n] + dm + end) && FineEnd(num, s[..n] + dm + end)
  {
    hide Run, BuildAll, FineFrom, Fits, InStep, TextOf, AsWritten, Contains, Canonical, Closing, Ready, Unescape, ErrorStack;
    var d, st := BuildAll(num, EMPTY_DOM, START, s[..n]), Run(START, s[..n]);
    Before(num, s, n);
    NewKey(num, s, n, dm, m, isKey);
    EndFine(num, BuildAll(num, d, st, dm), Run(st, dm), ErrorStack(s), end);
    ThreeTexts(s[..n], dm, end);
    FineConcat(num, EMPTY_DOM, START, s[..n], dm + end);
    FineConcat(num, d, st, dm, end);
    RunConcat(START, s[..n], dm + end);
    RunConcat(st, dm, end);
  }

  lemma InLonger(s: string, n: nat, m: string)
    requires n <= |s| && Contains(s[..n], m)
    ensures Contains(s, m)
  {
    ContainsMore(s[..n], m, [], s[n..]);
    assert [] + s[..n] + s[n..] == s;
  }

  /** Cutting the dump of the healed value at the first dump marker gives a prefix of `s`, all of it where it can. */
  ghost predicate CutRecovers(num: string -> string, s: string, h: Healed) {
    var v := ValueOf(num, h.text);
    v.Some? && CutIn(DumpJson(v.value), s, h)
  }

  lemma Recovered(num: string -> string, s: string, m: string, n: nat, dm: string, isKey: bool, end: string)
    requires Canonical(num, s) && Run(START, s).mode != Dead && n <= |s| && PlainText(m) && !Contains(s, m) && num("1") == "1"
    requires var d, st := BuildAll(num, EMPTY_DOM, START, s[..n]), Run(START, s[..n]);
             Marked(num, d, st, dm, m, isKey) && (isKey ==> st.mode.Str? || st.mode.FirstKey? || st.mode.NextKey? || st.mode.After?)
    requires var c := Closing(ErrorStack(s)); end == QUOTE + c || (c != [] && end == KEY_END + c)
    requires Compact(Run(START, s[..n]), dm) == dm && Accepts(Join(s[..n], dm, end).text)
    ensures CutRecovers(num, s, Join(s[..n], dm, end))
  {
    hide Run, BuildAll, FineFrom, Compact, AsWritten, Contains, HasMember, Find, DumpJson, ValueOf, Marked, CutIn, FineText, FineEnd, Accepts;
    HealedFine(num, s, n, dm, m, isKey, end);
    var h := Join(s[..n], dm, end);
    DumpIsText(num, h.text);
    CutAt(s, n, h);
  }

  lemma HasClosers(s: string)
    requires Run(START, s).mode != Dead && ErrorStack(s) != []
    ensures Closing(ErrorStack(s)) != []
  {
    hide Run, Closing, Nested;
    ErrorStackNested(s);
    ClosingNonEmpty(ErrorStack(s));
  }

  lemma NoCutBack(s: string)
    ensures s[..|s|] == s
  {
  }

  /** The last character of the open string after a backslash. */
  lemma BackToken(num: string -> string, s: string)
    requires Canonical(num, s) && Run(START, s).mode != Dead
    requires var md := Run(START, s).mode; md.Str? && md.s.Back?
    ensures var d := BuildAll(num, EMPTY_DOM, START, s); d.token != [] && d.token[|d.token| - 1] == '\\'
  {
    hide BuildAll, Run, FineFrom, Compact, InStep, AsWritten, OpenText, Fits;
    RunTrace(s);
    var d := BuildAll(num, EMPTY_DOM, START, s);
    NoCutBack(s);
    Before(num, s, |s|);
    LastOfText(d, s);
  }

  lemma LastOfText(d: Dom, s: string)
    requires s != [] && s[|s| - 1] == '\\' && s == OpenText(d.frames) + "\"" + d.token
    ensures d.token != [] && d.token[|d.token| - 1] == '\\'
  {
    hide OpenText;
    var w := OpenText(d.frames) + "\"";
    assert w[|w| - 1] == '"';
    assert w + d.token == s;
  }

  lemma KeptInString(s: string, m: string)
    requires var md := Run(START, s).mode; md.Str? && (md.s.Plain? || md.s.Back?) && s != [] && GoodMarker(m)
    ensures var md := Run(START, s).mode;
            && Keeps(s, Heal(s, m), if md.s.Back? then "\\" + m else m, md.isKey) && Heals(s, m)
            && (md.isKey ==> Closing(ErrorStack(s)) != [])
  {
    hide Run, Heal, Heals, Closing, Blocked, CutLands, Bridge;
    PlainIsNotBlocked(s);
    BridgeOfString(s, m);
    var md := Run(START, s).mode;
    if ErrorStack(s) == [] {
      TopLevelExact(s, m);
      TopLevelKey(s);
      assert Closing([]) == [] && QUOTE + [] == QUOTE by { NoClosers(); }
    } else {
      HasClosers(s);
      if md.isKey { HealsKeyString(s, m); } else { HealsValueString(s, m); }
    }
  }

  lemma NoClosers()
    ensures Closing([]) == []
  {
  }

  /** Keys are strings of objects. */
  lemma TopLevelKey(s: string)
    requires Run(START, s).mode.Str? && ErrorStack(s) == []
    ensures !Run(START, s).mode.isKey
  {
    hide Run, Nested;
    RunTrace(s);
  }

  /** The text breaks off in a string. */
  lemma CutInString(num: string -> string, s: string, m: string)
    requires Run(START, s).mode.Str? && s != [] && GoodMarker(m) && Canonical(num, s) && !Contains(s, m) && num("1") == "1"
    requires var sm := Run(START, s).mode.s; sm.Plain? || sm.Back?
    ensures Heal(s, m).Some? && CutRecovers(num, s, Heal(s, m).value)
  {
    hide Run, Closing, Heal, Blocked, CutLands, Compact, CutRecovers, BuildAll, FineFrom, Accepts, Marked, AsWritten, Contains, IsCompact;
    var st, d := Run(START, s), BuildAll(num, EMPTY_DOM, START, s);
    NoCutBack(s);
    PlainIsNotBlocked(s);
    KeptInString(s, m);
    CompactPlain(st.mode.isKey, st.stack, m);
    CompactInBack(st, m);
    if st.mode.s.Back? {
      BackToken(num, s);
      MarkedBack(num, d, st, m);
    } else {
      MarkedIn(num, d, st, m);
    }
    KeptWhole(num, s, m, if st.mode.s.Back? then "\\" + m else m, st.mode.isKey);
  }

  /** A text that is kept whole. */
  lemma KeptWhole(num: string -> string, s: string, m: string, dm: string, isKey: bool)
    requires Canonical(num, s) && Run(START, s).mode != Dead && PlainText(m) && !Contains(s, m) && num("1") == "1"
    requires var d, st := BuildAll(num, EMPTY_DOM, START, s), Run(START, s);
             Marked(num, d, st, dm, m, isKey) && (isKey ==> st.mode.Str? || st.mode.FirstKey? || st.mode.NextKey? || st.mode.After?)
    requires (isKey ==> Closing(ErrorStack(s)) != []) && Compact(Run(START, s), dm) == dm && Keeps(s, Heal(s, m), dm, isKey) && Heals(s, m)
    ensures CutRecovers(num, s, Heal(s, m).value)
  {
    hide Run, Closing, Heal, Compact, CutRecovers, BuildAll, FineFrom, Accepts, Marked, Contains, Canonical;
    NoCutBack(s);
    Recovered(num, s, m, |s|, dm, isKey, (if isKey then KEY_END else QUOTE) + Closing(ErrorStack(s)));
  }

  /** The text breaks off where a key or a value begins, behind a key, or behind a value. */
  lemma CutBetween(num: string -> string, s: string, m: string)
    requires Run(START, s).mode != Dead && ErrorStack(s) != [] && GoodMarker(m) && Canonical(num, s) && !Contains(s, m) && num("1") == "1"
    requires var md := Run(START, s).mode;
             md.Value? || md.FirstItem? || md.FirstKey? || md.NextKey? || md.Colon? || (md.After? && s != [] && s[|s| - 1] != 'e')
    ensures Heal(s, m).Some? && CutRecovers(num, s, Heal(s, m).value)
  {
    hide Run, Closing, Heal, CutLands, Compact, CutRecovers, BuildAll, FineFrom, Accepts, Marked, Contains, Canonical;
    var st, d := Run(START, s), BuildAll(num, EMPTY_DOM, START, s);
    HasClosers(s);
    if st.mode.Colon? {
      HealsAfterKey(s, m);
      CompactBehind(st, ':', m);
      MarkedBehind(num, d, st, ':', m);
      KeptWhole(num, s, m, [':', '"'] + m, false);
    } else if st.mode.After? {
      HealsAfterValue(s, m);
      AfterValueTests(s, m);
      CompactBehind(st, ',', m);
      MarkedBehind(num, d, st, ',', m);
      KeptWhole(num, s, m, [',', '"'] + m, Step(st, ',').mode.NextKey?);
    } else {
      HealsAtStart(s, m);
      CompactQuoted(st, m);
      MarkedNew(num, d, st, m);
      KeptWhole(num, s, m, QUOTE + m, st.mode.FirstKey? || st.mode.NextKey?);
    }
  }

  /** The text is cut back to where a value begins. */
  lemma CutBackRecovers(num: string -> string, s: string, m: string)
    requires Run(START, s).mode != Dead && ErrorStack(s) != [] && GoodMarker(m) && Canonical(num, s) && !Contains(s, m) && num("1") == "1"
    requires Heal(s, m) == CutBack(s, Top(ErrorStack(s)) == Some(Array), Closing(ErrorStack(s)), m) && CutLands(s) && Heals(s, m)
    ensures Heal(s, m).Some? && CutRecovers(num, s, Heal(s, m).value)
  {
    hide Run, Closing, Heal, Compact, CutRecovers, BuildAll, FineFrom, Accepts, Marked, Contains, Canonical;
    HasClosers(s);
    var i := LastSeparator(s, Top(ErrorStack(s)) == Some(Array)).value;
    var st, d := Run(START, s[..i + 1]), BuildAll(num, EMPTY_DOM, START, s[..i + 1]);
    CompactQuoted(st, m);
    MarkedNew(num, d, st, m);
    Recovered(num, s, m, i + 1, QUOTE + m, false, QUOTE + Closing(ErrorStack(s)));
  }

  /** The text breaks off in a number or a literal, or behind a value that may be a literal. */
  lemma CutInScalar(num: string -> string, s: string, m: string)
    requires Run(START, s).mode != Dead && ErrorStack(s) != [] && GoodMarker(m) && Canonical(num, s) && !Contains(s, m) && num("1") == "1"
    requires var md := Run(START, s).mode; md.Num? || md.Lit? || (md.After? && s != [] && s[|s| - 1] == 'e')
    ensures Heal(s, m).Some? && CutRecovers(num, s, Heal(s, m).value)
  {
    hide Run, Closing, Heal, CutRecovers, Contains, Canonical, CutLands, CutBack;
    if Run(START, s).mode.After? { HealsAfterValue(s, m); } else { HealsInScalar(s, m); }
    CutBackRecovers(num, s, m);
  }

  /** The text breaks off in a string that nothing continues, and the cut lands. */
  lemma CutInBlocked(num: string -> string, s: string, m: string)
    requires ErrorStack(s) != [] && GoodMarker(m) && Canonical(num, s) && !Contains(s, m) && num("1") == "1"
    requires Blocked(s) && CutLands(s)
    ensures Heal(s, m).Some? && CutRecovers(num, s, Heal(s, m).value)
  {
    hide Run, Closing, Heal, CutRecovers, Contains, Canonical, CutLands, CutBack, BlocksAt;
    if Run(START, s).mode.isKey { HealsKeyString(s, m); } else { HealsValueString(s, m); }
    CutBackRecovers(num, s, m);
  }

  /** Main result: let a truncated text, with an open container or an open string, be in the library's own format, not contain the marker, and not break off inside a
      \u escape or a character, unless it is cut back to where a value begins. Then the dump of the healed value contains the
      dump marker, and cutting at its first occurrence gives a prefix of the text. Where nothing was cut back and the dump
      marker does not begin earlier by overlapping the end of the text, the cut gives exactly the text. */
  lemma CutGivesPrefix(num: string -> string, s: string, m: string)
    requires Run(START, s).mode != Dead && s != [] && GoodMarker(m) && !Contains(s, m)
    requires Canonical(num, s) && num("1") == "1"
    requires var md, open := Run(START, s).mode, ErrorStack(s) != [];
             if md.Str? then md.s.Plain? || md.s.Back? || (open && (FalseHigh(s) || InsideChar(s)) && CutLands(s)) else open
    ensures Heal(s, m).Some? && CutRecovers(num, s, Heal(s, m).value)
  {
    hide Run, Heal, CutRecovers, Contains, Canonical, ErrorStack, CutLands, FalseHigh, InsideChar, Blocked;
    BlockedIs(s);
    var md := Run(START, s).mode;
    if md.Str? {
      if md.s.Plain? || md.s.Back? { CutInString(num, s, m); } else { CutInBlocked(num, s, m); }
    } else if md.Num? || md.Lit? || (md.After? && s[|s| - 1] == 'e') {
      CutInScalar(num, s, m);
    } else {
      CutBetween(num, s, m);
    }
  }
}

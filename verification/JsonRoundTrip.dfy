/** Reading undoes writing: json::parse takes the dump of a value and gives the value back (RFC 8259). */
module JsonRoundTrip {
  import opened Text
  import opened Utf8
  import opened JsonText
  import opened JsonString
  import opened JsonTokens
  import opened JsonValue

  // ----- Values that can be written

  predicate DistinctMembers(ms: Members) {
    forall i, j :: 0 <= i < j < |ms| ==> ms[i].0 != ms[j].0
  }

  /** Strings are UTF-8, numbers are as the library writes them, and no object repeats a key. */
  ghost predicate Writable(num: string -> string, v: Json) {
    match v
    case JNum(t) => IsNumber(t) && num(t) == t
    case JStr(s) => WellFormed(s)
    case JArr(items) => forall i :: 0 <= i < |items| ==> Writable(num, items[i])
    case JObj(ms) =>
      DistinctMembers(ms) && forall i :: 0 <= i < |ms| ==> WellFormed(ms[i].0) && Writable(num, ms[i].1)
    case _ => true
  }

  // ----- Strings

  lemma {:induction false} StrGoes(num: string -> string, d: Dom, isKey: bool, s: StrState, stack: seq<Elem>, t: string)
    requires StrRun(s, t).Some?
    ensures Run(State(Str(isKey, s), stack), t) == State(Str(isKey, StrRun(s, t).value), stack)
    ensures BuildAll(num, d, State(Str(isKey, s), stack), t) == d.(token := d.token + t)
    decreases |t|
  {
    if t == [] {
      assert d.token + [] == d.token;
    } else {
      NoQuote(s, t[0]);
      StrGoes(num, d.(token := d.token + [t[0]]), isKey, StrStep(s, t[0]).value, stack, t[1..]);
      assert d.token + [t[0]] + t[1..] == d.token + t;
    }
  }

  lemma NoQuote(s: StrState, c: char)
    requires StrStep(s, c).Some?
    ensures s.Plain? ==> c != '"'
  {
  }

  // ----- Numbers

  lemma {:induction false} NumGoesOn(num: string -> string, d: Dom, n: NumState, stack: seq<Elem>, t: string)
    requires NumRun(n, t).Some?
    ensures Run(State(Num(n), stack), t) == State(Num(NumRun(n, t).value), stack)
    ensures BuildAll(num, d, State(Num(n), stack), t) == d.(token := d.token + t)
    decreases |t|
  {
    hide NumStep;
    if t == [] {
      assert d.token + [] == d.token;
    } else {
      NumGoesOn(num, d.(token := d.token + [t[0]]), NumStep(n, t[0]).value, stack, t[1..]);
      assert d.token + [t[0]] + t[1..] == d.token + t;
    }
  }

  // ----- A text, piece by piece

  /** Reading `t` leads from one place to another. */
  predicate Leads(num: string -> string, d: Dom, st: State, t: string, d': Dom, st': State) {
    BuildAll(num, d, st, t) == d' && Run(st, t) == st'
  }

  lemma Chain(num: string -> string, d: Dom, st: State, t: string, d': Dom, st': State, u: string, d'': Dom, st'': State)
    requires Leads(num, d, st, t, d', st') && Leads(num, d', st', u, d'', st'')
    ensures Leads(num, d, st, t + u, d'', st'')
  {
    BuildConcat(num, d, st, t, u);
    RunConcat(st, t, u);
  }

  lemma LeadsOne(num: string -> string, d: Dom, st: State, c: char)
    ensures Leads(num, d, st, [c], Build(num, d, st, c), Step(st, c))
  {
    hide Build, Step;
    RunOne(st, c);
    assert BuildAll(num, Build(num, d, st, c), Step(st, c), []) == Build(num, d, st, c);
  }

  /** A value may come: in an object, its key is there. */
  predicate Awaits(d: Dom) {
    d.frames != [] ==> Last(d.frames).ArrFrame? || Last(d.frames).key.Some?
  }

  /** What is there once a value has been read; a number is complete only at the character behind it. */
  predicate Done(num: string -> string, d: Dom, stack: seq<Elem>, v: Json, d': Dom, st': State) {
    if v.JNum? then d' == d.(token := v.text) && st'.mode.Num? && st'.mode.n.Complete() && st'.stack == stack
    else d' == AddValue(d, v) && st' == State(After, CloseValue(stack))
  }

  predicate Ends(c: char) {
    c == ',' || c == ']' || c == '}'
  }

  /** The character behind a value. */
  lemma DoneThen(num: string -> string, d: Dom, stack: seq<Elem>, v: Json, d': Dom, st': State, c: char)
    requires Awaits(d) && Done(num, d, stack, v, d', st') && Ends(c) && (v.JNum? ==> num(v.text) == v.text)
    ensures Build(num, d', st', c) == AfterDom(AddValue(d, v), c) && Step(st', c) == AfterStep(c, CloseValue(stack))
  {
    hide CloseFrame, AfterStep, CloseValue;
    if v.JNum? {
      assert NumStep(st'.mode.n, c).None?;
      assert AddValue(d', v) == AddValue(d, v);
    }
  }

  // ----- Scalars

  lemma {:induction false} LitGoesOn(num: string -> string, d: Dom, stack: seq<Elem>, rest: string)
    requires Awaits(d) && rest != []
    ensures Leads(num, d, State(Lit(rest), stack), rest, AddValue(d, Literal(d.token + rest)), State(After, CloseValue(stack)))
    decreases |rest|
  {
    hide AddValue, CloseValue, Literal;
    var st := State(Lit(rest), stack);
    LeadsOne(num, d, st, rest[0]);
    if |rest| == 1 {
      assert rest == [rest[0]];
    } else {
      var d' := d.(token := d.token + [rest[0]]);
      LitGoesOn(num, d', stack, rest[1..]);
      assert AddValue(d', Literal(d'.token + rest[1..])) == AddValue(d, Literal(d.token + rest)) by {
        assert d'.token + rest[1..] == d.token + rest;
        TokenUnseen(d, d'.token, Literal(d.token + rest));
      }
      assert rest == [rest[0]] + rest[1..];
      Chain(num, d, st, [rest[0]], d', State(Lit(rest[1..]), stack), rest[1..],
            AddValue(d, Literal(d.token + rest)), State(After, CloseValue(stack)));
    }
  }

  lemma TokenUnseen(d: Dom, token: string, v: Json)
    requires Awaits(d)
    ensures AddValue(d.(token := token), v) == AddValue(d, v)
  {
  }

  /** A mode in which a value may begin. */
  predicate Begins(st: State) {
    st.mode == Value || st.mode == FirstItem
  }

  lemma BeginsWith(num: string -> string, d: Dom, st: State, c: char)
    requires Begins(st) && !IsWs(c) && c != ']'
    ensures Leads(num, d, st, [c], StartDom(d, c), StartValue(c, st.stack))
  {
    LeadsOne(num, d, st, c);
  }

  lemma LiteralRead(num: string -> string, d: Dom, st: State, v: Json, c: char, rest: string)
    requires Awaits(d) && Begins(st) && DumpJson(v) == [c] + rest && rest != [] && Starts(c)
    requires StartValue(c, st.stack) == State(Lit(rest), st.stack) && Literal([c] + rest) == v
    ensures Leads(num, d, st, DumpJson(v), AddValue(d, v), State(After, CloseValue(st.stack)))
  {
    hide AddValue, CloseValue, Literal, DumpJson, StartValue, Build, Step, Leads;
    BeginsWith(num, d, st, c);
    var d' := d.(token := [c]);
    LitGoesOn(num, d', st.stack, rest);
    TokenUnseen(d, [c], v);
    Chain(num, d, st, [c], d', State(Lit(rest), st.stack), rest, AddValue(d, v), State(After, CloseValue(st.stack)));
  }

  lemma NumberRead(num: string -> string, d: Dom, st: State, t: string) returns (end: NumState)
    requires Begins(st) && IsNumber(t)
    ensures end.Complete() && Leads(num, d, st, t, d.(token := t), State(Num(end), st.stack))
  {
    hide NumRun, StartValue, Build, Step, IsNumber;
    var first;
    first, end := NumberRuns(t, st.stack);
    BeginsWith(num, d, st, t[0]);
    var d' := d.(token := [t[0]]);
    NumGoesOn(num, d', first, st.stack, t[1..]);
    assert t == [t[0]] + t[1..];
    Chain(num, d, st, [t[0]], d', State(Num(first), st.stack), t[1..], d.(token := t), State(Num(end), st.stack));
  }

  /** A string up to its closing quote. */
  lemma StringGoesOn(num: string -> string, d: Dom, isKey: bool, stack: seq<Elem>, s: string)
    requires WellFormed(s) && d.token == []
    ensures Leads(num, d, State(Str(isKey, Plain), stack), Escape(s), d.(token := Escape(s)), State(Str(isKey, Plain), stack))
  {
    hide StrRun, Escape, EncodeAll, Scalars;
    var cs: seq<CodePoint> :| EncodeAll(cs) == s && Scalars(cs);
    TextRuns(cs);
    StrGoes(num, d, isKey, Plain, stack, Escape(s));
    assert [] + Escape(s) == Escape(s);
  }

  lemma ReadBack(s: string)
    ensures Unescape(Escape(s)) == s
  {
    UnescapeEscape(s, []);
    NothingRead();
    assert Escape(s) + [] == Escape(s) && s + [] == s;
  }

  /** The closing quote of a value. */
  lemma QuoteEnds(num: string -> string, d: Dom, stack: seq<Elem>, s: string)
    requires Awaits(d)
    ensures Leads(num, d.(token := Escape(s)), State(Str(false, Plain), stack), ['"'], AddValue(d, JStr(s)), State(After, CloseValue(stack)))
  {
    hide AddValue, CloseValue, Escape, Unescape;
    ReadBack(s);
    LeadsOne(num, d.(token := Escape(s)), State(Str(false, Plain), stack), '"');
    TokenUnseen(d, Escape(s), JStr(s));
  }

  lemma QuotedText(s: string)
    ensures Quoted(s) == ['"'] + (Escape(s) + ['"'])
  {
  }

  lemma StringRead(num: string -> string, d: Dom, st: State, s: string)
    requires Awaits(d) && Begins(st) && WellFormed(s)
    ensures Leads(num, d, st, Quoted(s), AddValue(d, JStr(s)), State(After, CloseValue(st.stack)))
  {
    hide AddValue, CloseValue, Escape, WellFormed, Leads, Quoted;
    BeginsWith(num, d, st, '"');
    var d0, d1, st1 := d.(token := []), d.(token := Escape(s)), State(Str(false, Plain), st.stack);
    StringGoesOn(num, d0, false, st.stack, s);
    QuoteEnds(num, d, st.stack, s);
    Chain(num, d0, st1, Escape(s), d1, st1, ['"'], AddValue(d, JStr(s)), State(After, CloseValue(st.stack)));
    QuotedText(s);
    Chain(num, d, st, ['"'], d0, st1, Escape(s) + ['"'], AddValue(d, JStr(s)), State(After, CloseValue(st.stack)));
  }

  // ----- Containers

  function InArray(d: Dom, items: seq<Json>): Dom {
    Dom(d.frames + [ArrFrame(items)], [], d.root)
  }

  function InObject(d: Dom, ms: Members): Dom {
    Dom(d.frames + [ObjFrame(ms, None)], [], d.root)
  }

  lemma ArrayOpens(num: string -> string, d: Dom, st: State)
    requires Begins(st) && d.token == []
    ensures Leads(num, d, st, ['['], InArray(d, []), State(FirstItem, st.stack + [Array]))
  {
    BeginsWith(num, d, st, '[');
  }

  lemma ObjectOpens(num: string -> string, d: Dom, st: State)
    requires Begins(st) && d.token == []
    ensures Leads(num, d, st, ['{'], InObject(d, []), State(FirstKey, st.stack + [Object]))
  {
    BeginsWith(num, d, st, '{');
  }

  /** The closing bracket, behind the last item or at once. */
  lemma ArrayCloses(d: Dom, stack: seq<Elem>, items: seq<Json>)
    ensures CloseFrame(InArray(d, items)) == AddValue(d.(token := []), JArr(items))
    ensures AfterStep(']', stack + [Array]) == State(After, CloseValue(stack)) == State(After, EndContainer(stack + [Array]))
  {
    hide AddValue;
    FrontLast(d.frames, ArrFrame(items));
    FrontLast(stack, Array);
  }

  lemma ObjectCloses(d: Dom, stack: seq<Elem>, ms: Members)
    ensures CloseFrame(InObject(d, ms)) == AddValue(d.(token := []), JObj(ms))
    ensures AfterStep('}', stack + [Object]) == State(After, CloseValue(stack)) == State(After, EndContainer(stack + [Object]))
  {
    hide AddValue;
    FrontLast(d.frames, ObjFrame(ms, None));
    FrontLast(stack, Object);
  }

  lemma ItemAdded(d: Dom, stack: seq<Elem>, items: seq<Json>, v: Json)
    ensures AddValue(InArray(d, items), v) == InArray(d, items + [v]) && InArray(d, items).token == []
    ensures Awaits(InArray(d, items)) && CloseValue(stack + [Array]) == stack + [Array]
  {
    FrontLast(d.frames, ArrFrame(items));
  }

  lemma CommaInArray(d: Dom, stack: seq<Elem>)
    ensures AfterDom(d, ',') == d && AfterStep(',', stack + [Array]) == State(Value, stack + [Array])
    ensures AfterStep(',', stack + [Object]) == State(NextKey, stack + [Object])
  {
  }

  /** One value and the character behind it. */
  lemma ValueThen(num: string -> string, d: Dom, st: State, v: Json, d': Dom, st': State, c: char)
    requires Awaits(d) && Leads(num, d, st, DumpJson(v), d', st') && Done(num, d, st.stack, v, d', st') && Ends(c)
    requires v.JNum? ==> num(v.text) == v.text
    ensures Leads(num, d, st, DumpJson(v) + [c], AfterDom(AddValue(d, v), c), AfterStep(c, CloseValue(st.stack)))
  {
    hide AfterDom, AddValue, AfterStep, CloseValue, DumpJson, Build, Step, Leads;
    DoneThen(num, d, st.stack, v, d', st', c);
    LeadsOne(num, d', st', c);
    Chain(num, d, st, DumpJson(v), d', st', [c], Build(num, d', st', c), Step(st', c));
  }

  lemma ItemsText(items: seq<Json>, k: nat)
    requires 1 < k <= |items|
    ensures DumpItems(items[..k]) == DumpItems(items[..k - 1]) + [','] + DumpJson(items[k - 1])
    ensures items[..k] == items[..k - 1] + [items[k - 1]]
  {
    hide DumpJson;
    var all := items[..k];
    assert all[..|all| - 1] == items[..k - 1] && all[|all| - 1] == items[k - 1];
  }

  lemma OneItem(items: seq<Json>)
    requires items != []
    ensures DumpItems(items[..1]) == DumpJson(items[0]) && items[..1] == [] + [items[0]]
  {
    hide DumpJson;
  }

  /** The first `k` items and the character behind them. */
  lemma {:induction false} ReadItems(num: string -> string, d: Dom, stack: seq<Elem>, v: Json, k: nat, c: char)
    requires v.JArr? && Writable(num, v) && 0 < k <= |v.items| && Ends(c)
    ensures Leads(num, InArray(d, []), State(FirstItem, stack + [Array]), DumpItems(v.items[..k]) + [c],
                  AfterDom(InArray(d, v.items[..k]), c), AfterStep(c, stack + [Array]))
    decreases v, k
  {
    hide DumpJson, DumpItems, AfterDom, AddValue, AfterStep, CloseValue, Leads, InArray, Awaits, Done;
    var items, stk := v.items, stack + [Array];
    var before := items[..k - 1];
    var last := items[k - 1];
    var d0, st0 := InArray(d, before), if k == 1 then State(FirstItem, stk) else State(Value, stk);
    ItemAdded(d, stack, before, last);
    var d', st' := ReadJson(num, d0, st0, last);
    ValueThen(num, d0, st0, last, d', st', c);
    if k == 1 {
      OneItem(items);
    } else {
      ItemsText(items, k);
      CommaInArray(d0, stack);
      ReadItems(num, d, stack, v, k - 1, ',');
      Chain(num, InArray(d, []), State(FirstItem, stk), DumpItems(before) + [','], d0, st0, DumpJson(last) + [c],
            AfterDom(InArray(d, items[..k]), c), AfterStep(c, stk));
      ThreeTexts(DumpItems(before) + [','], DumpJson(last), [c]);
    }
  }

  lemma KeyOpens(num: string -> string, d: Dom, st: State)
    requires st.mode == FirstKey || st.mode == NextKey
    ensures Leads(num, d, st, ['"'], d.(token := []), State(Str(true, Plain), st.stack))
  {
    LeadsOne(num, d, st, '"');
  }

  /** A key is complete and waits for its value. */
  function WithKey(d: Dom, ms: Members, key: string): Dom {
    Dom(d.frames + [ObjFrame(ms, Some(key))], [], d.root)
  }

  lemma KeyEnds(num: string -> string, d: Dom, stack: seq<Elem>, ms: Members, key: string)
    ensures Leads(num, InObject(d, ms).(token := Escape(key)), State(Str(true, Plain), stack), ['"'],
                  WithKey(d, ms, key), State(Colon, stack + [Key]))
  {
    hide Escape, Unescape;
    ReadBack(key);
    FrontLast(d.frames, ObjFrame(ms, None));
    LeadsOne(num, InObject(d, ms).(token := Escape(key)), State(Str(true, Plain), stack), '"');
  }

  lemma ColonRead(num: string -> string, d: Dom, stack: seq<Elem>)
    ensures Leads(num, d, State(Colon, stack), [':'], d, State(Value, stack))
  {
    LeadsOne(num, d, State(Colon, stack), ':');
  }

  lemma KeyText(key: string)
    ensures Quoted(key) + ":" == ['"'] + (Escape(key) + (['"'] + [':']))
  {
  }

  /** A key and its colon. */
  lemma KeyRead(num: string -> string, d: Dom, st: State, ms: Members, key: string)
    requires (st.mode == FirstKey || st.mode == NextKey) && WellFormed(key)
    ensures Leads(num, InObject(d, ms), st, Quoted(key) + ":", WithKey(d, ms, key), State(Value, st.stack + [Key]))
  {
    hide Escape, WellFormed, Leads, Quoted;
    var d0, d1, d2, st1 := InObject(d, ms), InObject(d, ms).(token := Escape(key)), WithKey(d, ms, key), State(Str(true, Plain), st.stack);
    KeyOpens(num, d0, st);
    StringGoesOn(num, d0, true, st.stack, key);
    KeyEnds(num, d, st.stack, ms, key);
    ColonRead(num, d2, st.stack + [Key]);
    Chain(num, d1, st1, ['"'], d2, State(Colon, st.stack + [Key]), [':'], d2, State(Value, st.stack + [Key]));
    Chain(num, d0, st1, Escape(key), d1, st1, ['"'] + [':'], d2, State(Value, st.stack + [Key]));
    Chain(num, d0, st, ['"'], d0, st1, Escape(key) + (['"'] + [':']), d2, State(Value, st.stack + [Key]));
    KeyText(key);
  }

  lemma MemberAdded(d: Dom, stack: seq<Elem>, ms: Members, key: string, v: Json)
    requires !HasMember(ms, key)
    ensures AddValue(WithKey(d, ms, key), v) == InObject(d, ms + [(key, v)])
    ensures Awaits(WithKey(d, ms, key)) && CloseValue(stack + [Object] + [Key]) == stack + [Object]
  {
    hide HasMember, Assign;
    AssignNew(ms, key, v);
    FrontLast(d.frames, ObjFrame(ms, Some(key)));
    FrontLast(stack + [Object], Key);
  }

  lemma MembersText(ms: Members, k: nat)
    requires 1 < k <= |ms|
    ensures DumpMembers(ms[..k]) == DumpMembers(ms[..k - 1]) + [','] + DumpMember(ms[k - 1])
    ensures ms[..k] == ms[..k - 1] + [ms[k - 1]]
  {
    hide DumpMember;
    var all := ms[..k];
    assert all[..|all| - 1] == ms[..k - 1] && all[|all| - 1] == ms[k - 1];
  }

  lemma OneMember(ms: Members)
    requires ms != []
    ensures DumpMembers(ms[..1]) == DumpMember(ms[0]) && ms[..1] == [] + [ms[0]]
  {
    hide DumpMember;
  }

  lemma KeyIsNew(ms: Members, k: nat)
    requires DistinctMembers(ms) && k < |ms|
    ensures !HasMember(ms[..k], ms[k].0)
  {
  }

  /** Key, value and the character behind them. */
  lemma MemberThen(num: string -> string, d: Dom, st: State, d1: Dom, st1: State, key: string, v: Json, c: char, d': Dom, st': State)
    requires Leads(num, d, st, Quoted(key) + ":", d1, st1) && Leads(num, d1, st1, DumpJson(v) + [c], d', st')
    ensures Leads(num, d, st, DumpMember((key, v)) + [c], d', st')
  {
    hide Leads, Quoted, DumpJson;
    Chain(num, d, st, Quoted(key) + ":", d1, st1, DumpJson(v) + [c], d', st');
    ThreeTexts(Quoted(key) + ":", DumpJson(v), [c]);
  }

  /** The first `k` members and the character behind them. */
  lemma {:induction false} ReadMembers(num: string -> string, d: Dom, stack: seq<Elem>, v: Json, k: nat, c: char)
    requires v.JObj? && Writable(num, v) && 0 < k <= |v.members| && Ends(c)
    ensures Leads(num, InObject(d, []), State(FirstKey, stack + [Object]), DumpMembers(v.members[..k]) + [c],
                  AfterDom(InObject(d, v.members[..k]), c), AfterStep(c, stack + [Object]))
    decreases v, k
  {
    hide DumpJson, DumpMembers, DumpMember, Quoted, AfterDom, AddValue, AfterStep, CloseValue, Leads, InObject, WithKey, Awaits, Done;
    hide DistinctMembers, HasMember, WellFormed;
    var ms, stk := v.members, stack + [Object];
    var before, key, last := ms[..k - 1], ms[k - 1].0, ms[k - 1].1;
    var d0, st0 := InObject(d, before), if k == 1 then State(FirstKey, stk) else State(NextKey, stk);
    var d1, st1 := WithKey(d, before, key), State(Value, stk + [Key]);
    KeyIsNew(ms, k - 1);
    MemberAdded(d, stack, before, key, last);
    KeyRead(num, d, st0, before, key);
    KeyToken(d, before, key);
    var d', st' := ReadJson(num, d1, st1, last);
    ValueThen(num, d1, st1, last, d', st', c);
    MemberThen(num, d0, st0, d1, st1, key, last, c, AfterDom(AddValue(d1, last), c), AfterStep(c, stk));
    if k == 1 {
      OneMember(ms);
    } else {
      MembersText(ms, k);
      CommaInArray(d0, stack);
      ReadMembers(num, d, stack, v, k - 1, ',');
      Chain(num, InObject(d, []), State(FirstKey, stk), DumpMembers(before) + [','], d0, st0, DumpMember(ms[k - 1]) + [c],
            AfterDom(InObject(d, ms[..k]), c), AfterStep(c, stk));
      ThreeTexts(DumpMembers(before) + [','], DumpMember(ms[k - 1]), [c]);
    }
  }

  lemma KeyToken(d: Dom, ms: Members, key: string)
    ensures WithKey(d, ms, key).token == []
  {
  }

  // ----- The whole

  lemma EmptyArrayRead(num: string -> string, d: Dom, st: State)
    requires d.token == [] && Begins(st)
    ensures Leads(num, d, st, DumpJson(JArr([])), AddValue(d, JArr([])), State(After, CloseValue(st.stack)))
  {
    hide Leads, AddValue, CloseFrame, AfterStep, CloseValue, EndContainer, InArray, Begins;
    var d0, st0 := InArray(d, []), State(FirstItem, st.stack + [Array]);
    ArrayOpens(num, d, st);
    ArrayCloses(d, st.stack, []);
    LeadsOne(num, d0, st0, ']');
    assert DumpJson(JArr([])) == ['['] + [']'];
    Chain(num, d, st, ['['], d0, st0, [']'], AddValue(d, JArr([])), State(After, CloseValue(st.stack)));
  }

  lemma EmptyObjectRead(num: string -> string, d: Dom, st: State)
    requires d.token == [] && Begins(st)
    ensures Leads(num, d, st, DumpJson(JObj([])), AddValue(d, JObj([])), State(After, CloseValue(st.stack)))
  {
    hide Leads, AddValue, CloseFrame, AfterStep, CloseValue, EndContainer, InObject, Begins;
    var d0, st0 := InObject(d, []), State(FirstKey, st.stack + [Object]);
    ObjectOpens(num, d, st);
    ObjectCloses(d, st.stack, []);
    LeadsOne(num, d0, st0, '}');
    assert DumpJson(JObj([])) == ['{'] + ['}'];
    Chain(num, d, st, ['{'], d0, st0, ['}'], AddValue(d, JObj([])), State(After, CloseValue(st.stack)));
  }

  lemma ArrayRead(num: string -> string, d: Dom, st: State, v: Json)
    requires v.JArr? && v.items != [] && Writable(num, v) && d.token == [] && Begins(st)
    ensures Leads(num, d, st, DumpJson(v), AddValue(d, v), State(After, CloseValue(st.stack)))
    decreases v, |v.items| + 1
  {
    hide Leads, AddValue, CloseFrame, AfterStep, CloseValue, EndContainer, InArray, Writable, DumpItems, Begins;
    var n := |v.items|;
    ArrayOpens(num, d, st);
    ReadItems(num, d, st.stack, v, n, ']');
    ArrayCloses(d, st.stack, v.items);
    assert v.items[..n] == v.items;
    Chain(num, d, st, ['['], InArray(d, []), State(FirstItem, st.stack + [Array]), DumpItems(v.items) + [']'],
          AddValue(d, v), State(After, CloseValue(st.stack)));
    ThreeTexts("[", DumpItems(v.items), "]");
  }

  lemma ObjectRead(num: string -> string, d: Dom, st: State, v: Json)
    requires v.JObj? && v.members != [] && Writable(num, v) && d.token == [] && Begins(st)
    ensures Leads(num, d, st, DumpJson(v), AddValue(d, v), State(After, CloseValue(st.stack)))
    decreases v, |v.members| + 1
  {
    hide Leads, AddValue, CloseFrame, AfterStep, CloseValue, EndContainer, InObject, Writable, DumpMembers, Begins;
    var n := |v.members|;
    ObjectOpens(num, d, st);
    ReadMembers(num, d, st.stack, v, n, '}');
    ObjectCloses(d, st.stack, v.members);
    assert v.members[..n] == v.members;
    Chain(num, d, st, ['{'], InObject(d, []), State(FirstKey, st.stack + [Object]), DumpMembers(v.members) + ['}'],
          AddValue(d, v), State(After, CloseValue(st.stack)));
    ThreeTexts("{", DumpMembers(v.members), "}");
  }

  lemma WordRead(num: string -> string, d: Dom, st: State, v: Json)
    requires Awaits(d) && Begins(st) && (v.JNull? || v.JBool?)
    ensures Leads(num, d, st, DumpJson(v), AddValue(d, v), State(After, CloseValue(st.stack)))
  {
    hide Leads, AddValue, CloseValue, Awaits, Begins;
    match v
    case JNull => LiteralRead(num, d, st, v, 'n', "ull");
    case JBool(b) =>
      if b {
        LiteralRead(num, d, st, v, 't', "rue");
      } else {
        LiteralRead(num, d, st, v, 'f', "alse");
      }
  }

  /** A value is read from its dump, wherever one may stand. */
  lemma {:induction false} ReadJson(num: string -> string, d: Dom, st: State, v: Json) returns (d': Dom, st': State)
    requires Awaits(d) && d.token == [] && Begins(st) && Writable(num, v)
    ensures Leads(num, d, st, DumpJson(v), d', st') && Done(num, d, st.stack, v, d', st')
    ensures v.JNum? ==> num(v.text) == v.text
    decreases v, if v.JArr? then |v.items| + 2 else if v.JObj? then |v.members| + 2 else 0
  {
    hide Leads, AddValue, CloseValue, Awaits, Begins, WellFormed, IsNumber, DumpItems, DumpMembers, Quoted;
    d', st' := AddValue(d, v), State(After, CloseValue(st.stack));
    match v
    case JNum(t) =>
      var end := NumberRead(num, d, st, t);
      d', st' := d.(token := t), State(Num(end), st.stack);
    case JStr(s) => StringRead(num, d, st, s);
    case JArr(items) =>
      if items == [] {
        EmptyArrayRead(num, d, st);
      } else {
        ArrayRead(num, d, st, v);
      }
    case JObj(ms) =>
      if ms == [] {
        EmptyObjectRead(num, d, st);
      } else {
        ObjectRead(num, d, st, v);
      }
    case _ => WordRead(num, d, st, v);
  }

  /** Main result: json::parse accepts the dump of a value and gives the value back. */
  lemma ParseDump(num: string -> string, v: Json)
    requires Writable(num, v)
    ensures ValueOf(num, DumpJson(v)) == Some(v)
  {
    hide DumpJson, Writable, BuildAll, Run;
    var d, st := ReadJson(num, EMPTY_DOM, START, v);
  }

  // ----- Tokens that break

  /** The character cannot come next in the token: in a string, or in a number that it would leave incomplete. */
  predicate Breaks(mode: Mode, c: char) {
    match mode
    case Str(_, s) => StrStep(s, c).None? && !(s.Plain? && c == '"')
    case Num(n) => NumStep(n, c).None? && !n.Complete()
    case Lit(rest) => rest == [] || c != rest[0]
    case _ => false
  }

  /** A text with such a character is not accepted, whatever comes behind it. */
  lemma BrokenToken(a: string, c: char, b: string)
    requires Breaks(Run(START, a).mode, c)
    ensures !Accepts(a + [c] + b)
  {
    hide StrStep, NumStep;
    RunConcat(START, a + [c], b);
    RunConcat(START, a, [c]);
    RunOne(Run(START, a), c);
    DeadStays(b);
  }

  // ----- White space

  predicate AllWs(w: string) {
    forall i :: 0 <= i < |w| ==> IsWs(w[i])
  }

  /** No token is being read, unless it is a number that what follows does not belong to. */
  predicate BetweenTokens(st: State, b: string) {
    match st.mode
    case Str(_, _) => false
    case Lit(_) => false
    case Num(n) => n.Complete() && (b == [] || NumStep(n, b[0]).None?)
    case Dead => false
    case _ => true
  }

  lemma {:induction false} WsStays(num: string -> string, d: Dom, st: State, w: string)
    requires AllWs(w) && BetweenTokens(st, []) && !st.mode.Num?
    ensures Leads(num, d, st, w, d, st)
    decreases |w|
  {
    if w != [] {
      WsStays(num, d, st, w[1..]);
    }
  }

  /** White space completes a number. */
  lemma WsEnds(num: string -> string, d: Dom, st: State, w: string)
    requires AllWs(w) && w != [] && st.mode.Num? && st.mode.n.Complete()
    ensures Leads(num, d, st, w, AddValue(d, JNum(num(d.token))), State(After, CloseValue(st.stack)))
  {
    hide AddValue, CloseValue, CloseFrame;
    assert NumStep(st.mode.n, w[0]).None?;
    var d', st' := AddValue(d, JNum(num(d.token))), State(After, CloseValue(st.stack));
    LeadsOne(num, d, st, w[0]);
    WsStays(num, d', st', w[1..]);
    assert w == [w[0]] + w[1..];
    Chain(num, d, st, [w[0]], d', st', w[1..], d', st');
  }

  /** A complete number is what it will be. */
  lemma NumberEnds(num: string -> string, d: Dom, st: State, b: string)
    requires st.mode.Num? && BetweenTokens(st, b) && b != []
    ensures var d', st' := AddValue(d, JNum(num(d.token))), State(After, CloseValue(st.stack));
            Run(st, b) == Run(st', b) && BuildAll(num, d, st, b) == BuildAll(num, d', st', b)
  {
    hide AddValue, CloseValue, CloseFrame;
  }

  /** Main result: white space between tokens changes neither whether a text is accepted nor its value. */
  lemma SpaceBetween(num: string -> string, a: string, w: string, b: string)
    requires AllWs(w) && BetweenTokens(Run(START, a), b)
    ensures ValueOf(num, a + w + b) == ValueOf(num, a + b)
  {
    hide AddValue, CloseValue, Build, Step, Run, BuildAll;
    var st, d := Run(START, a), BuildAll(num, EMPTY_DOM, START, a);
    BuildConcat(num, EMPTY_DOM, START, a, b);
    RunConcat(START, a, b);
    BuildConcat(num, EMPTY_DOM, START, a + w, b);
    RunConcat(START, a + w, b);
    BuildConcat(num, EMPTY_DOM, START, a, w);
    RunConcat(START, a, w);
    if w == [] {
      assert a + w == a;
    } else if !st.mode.Num? {
      WsStays(num, d, st, w);
    } else {
      WsEnds(num, d, st, w);
      if b == [] {
        assert a + b == a && a + w + b == a + w;
      } else {
        NumberEnds(num, d, st, b);
      }
    }
  }
}

/** JSON values: how the library builds them while it reads a text, and how it dumps them. */
module JsonValue {
  import opened Text
  import opened JsonText
  import opened JsonString

  // ----- Values and their dump

  /** A number is kept as the text in which the library writes it. */
  datatype Json = JNull | JBool(b: bool) | JNum(text: string) | JStr(text: string) | JArr(items: seq<Json>) | JObj(members: Members)

  type Members = seq<(string, Json)>

  function Quoted(s: string): string {
    "\"" + Escape(s) + "\""
  }

  /** dump(), without indentation. */
  function DumpJson(v: Json): string {
    match v
    case JNull => "null"
    case JBool(b) => if b then "true" else "false"
    case JNum(t) => t
    case JStr(s) => Quoted(s)
    case JArr(items) => "[" + DumpItems(items) + "]"
    case JObj(ms) => "{" + DumpMembers(ms) + "}"
  }

  function DumpItems(items: seq<Json>): string {
    if items == [] then []
    else if |items| == 1 then DumpJson(items[0])
    else DumpItems(items[..|items| - 1]) + "," + DumpJson(items[|items| - 1])
  }

  function DumpMember(m: (string, Json)): string {
    Quoted(m.0) + ":" + DumpJson(m.1)
  }

  function DumpMembers(ms: Members): string {
    if ms == [] then []
    else if |ms| == 1 then DumpMember(ms[0])
    else DumpMembers(ms[..|ms| - 1]) + "," + DumpMember(ms[|ms| - 1])
  }

  predicate HasMember(ms: Members, key: string) {
    exists i :: 0 <= i < |ms| && ms[i].0 == key
  }

  /** object[key] = value: a key that is there keeps its place. */
  function Assign(ms: Members, key: string, v: Json): Members {
    if ms == [] then [(key, v)]
    else if ms[0].0 == key then [(key, v)] + ms[1..]
    else [ms[0]] + Assign(ms[1..], key, v)
  }

  lemma {:induction false} AssignNew(ms: Members, key: string, v: Json)
    requires !HasMember(ms, key)
    ensures Assign(ms, key, v) == ms + [(key, v)]
  {
    if ms != [] {
      assert ms[0].0 != key;
      forall i | 0 <= i < |ms[1..]|
        ensures ms[1..][i].0 != key
      {
        assert ms[i + 1].0 != key;
      }
      AssignNew(ms[1..], key, v);
      assert [ms[0]] + (ms[1..] + [(key, v)]) == ms + [(key, v)];
    }
  }

  // ----- Building a value while reading

  /** An open container; in an object, a key may be waiting for its value. */
  datatype Frame = ArrFrame(items: seq<Json>) | ObjFrame(members: Members, key: Option<string>)

  /** The open containers, the characters of the token being read, and the value once it is complete. */
  datatype Dom = Dom(frames: seq<Frame>, token: string, root: Option<Json>)

  const EMPTY_DOM := Dom([], [], None)

  /** A value is complete. */
  function AddValue(d: Dom, v: Json): Dom {
    if d.frames == [] then Dom([], [], Some(v))
    else
      var rest := Front(d.frames);
      match Last(d.frames)
      case ArrFrame(items) => Dom(rest + [ArrFrame(items + [v])], [], d.root)
      case ObjFrame(ms, Some(k)) => Dom(rest + [ObjFrame(Assign(ms, k, v), None)], [], d.root)
      case _ => d
  }

  /** The innermost container is complete. */
  function CloseFrame(d: Dom): Dom {
    if d.frames == [] then d
    else
      AddValue(d.(frames := Front(d.frames)),
               match Last(d.frames) case ArrFrame(items) => JArr(items) case ObjFrame(ms, _) => JObj(ms))
  }

  function StartDom(d: Dom, c: char): Dom {
    if c == '"' then d.(token := [])
    else if c == '{' then d.(frames := d.frames + [ObjFrame([], None)])
    else if c == '[' then d.(frames := d.frames + [ArrFrame([])])
    else d.(token := [c])
  }

  function AfterDom(d: Dom, c: char): Dom {
    if c == '}' || c == ']' then CloseFrame(d) else d
  }

  function Literal(t: string): Json {
    if t == "true" then JBool(true) else if t == "false" then JBool(false) else JNull
  }

  /** What the library does with character `c`; `num` is how it writes the number that a token denotes. */
  function Build(num: string -> string, d: Dom, st: State, c: char): Dom {
    match st.mode
    case Value => if IsWs(c) then d else StartDom(d, c)
    case FirstItem => if IsWs(c) then d else if c == ']' then CloseFrame(d) else StartDom(d, c)
    case FirstKey => if c == '"' then d.(token := []) else if c == '}' then CloseFrame(d) else d
    case NextKey => if c == '"' then d.(token := []) else d
    case Colon => d
    case After => AfterDom(d, c)
    case Str(isKey, s) =>
      if !(s.Plain? && c == '"') then d.(token := d.token + [c])
      else if !isKey then AddValue(d, JStr(Unescape(d.token)))
      else if d.frames != [] && Last(d.frames).ObjFrame? then
        Dom(Front(d.frames) + [ObjFrame(Last(d.frames).members, Some(Unescape(d.token)))], [], d.root)
      else d
    case Num(n) =>
      if NumStep(n, c).Some? then d.(token := d.token + [c]) else AfterDom(AddValue(d, JNum(num(d.token))), c)
    case Lit(rest) => if |rest| == 1 then AddValue(d, Literal(d.token + [c])) else d.(token := d.token + [c])
    case Dead => d
  }

  function BuildAll(num: string -> string, d: Dom, st: State, t: string): Dom
    decreases |t|
  {
    if t == [] then d else BuildAll(num, Build(num, d, st, t[0]), Step(st, t[0]), t[1..])
  }

  /** json::parse: the value of a text. */
  function ValueOf(num: string -> string, t: string): Option<Json> {
    var d, st := BuildAll(num, EMPTY_DOM, START, t), Run(START, t);
    if !Accepts(t) then None else if st.mode.Num? then AddValue(d, JNum(num(d.token))).root else d.root
  }

  lemma BuildConcat(num: string -> string, d: Dom, st: State, s: string, t: string)
    ensures BuildAll(num, d, st, s + t) == BuildAll(num, BuildAll(num, d, st, s), Run(st, s), t)
    decreases |s|
  {
    if s == [] {
      assert s + t == t;
    } else {
      assert (s + t)[1..] == s[1..] + t;
      BuildConcat(num, Build(num, d, st, s[0]), Step(st, s[0]), s[1..], t);
    }
  }

  // ----- Texts whose tokens are as the library writes them

  /** If `c` ends a token, the token is as the library writes it, and a key is a new one. */
  predicate Fine(num: string -> string, d: Dom, st: State, c: char) {
    match st.mode
    case Str(isKey, s) =>
      s.Plain? && c == '"' ==>
        && AsWritten(d.token)
        && (isKey && d.frames != [] && Last(d.frames).ObjFrame? ==> !HasMember(Last(d.frames).members, Unescape(d.token)))
    case Num(n) => NumStep(n, c).None? ==> num(d.token) == d.token
    case _ => true
  }

  predicate FineFrom(num: string -> string, d: Dom, st: State, t: string)
    decreases |t|
  {
    t == [] || (Fine(num, d, st, t[0]) && FineFrom(num, Build(num, d, st, t[0]), Step(st, t[0]), t[1..]))
  }

  lemma FineConcat(num: string -> string, d: Dom, st: State, s: string, t: string)
    ensures FineFrom(num, d, st, s + t) <==>
            FineFrom(num, d, st, s) && FineFrom(num, BuildAll(num, d, st, s), Run(st, s), t)
    decreases |s|
  {
    if s == [] {
      assert s + t == t;
    } else {
      assert (s + t)[1..] == s[1..] + t;
      FineConcat(num, Build(num, d, st, s[0]), Step(st, s[0]), s[1..], t);
    }
  }

  /** All finished tokens of the text are as the library writes them, and no object repeats a key. */
  predicate FineText(num: string -> string, t: string) {
    FineFrom(num, EMPTY_DOM, START, t)
  }

  // ----- What has been read, dumped

  function Head(fr: Frame): string {
    match fr
    case ArrFrame(items) => "[" + DumpItems(items)
    case ObjFrame(ms, _) => "{" + DumpMembers(ms)
  }

  predicate IsEmpty(fr: Frame) {
    match fr case ArrFrame(items) => items == [] case ObjFrame(ms, _) => ms == []
  }

  /** Up to where the next item or key goes. */
  function Opened(fr: Frame): string {
    Head(fr) + (if IsEmpty(fr) then [] else ",")
  }

  /** Up to where the value goes. */
  function Awaiting(fr: Frame): string {
    Opened(fr) + (if fr.ObjFrame? && fr.key.Some? then Quoted(fr.key.value) + ":" else [])
  }

  function OpenText(frames: seq<Frame>): string {
    if frames == [] then [] else OpenText(Front(frames)) + Awaiting(Last(frames))
  }

  /** The text that has been read, as the dump would write it. */
  function TextOf(d: Dom, mode: Mode): string {
    match mode
    case Str(_, _) => OpenText(d.frames) + "\"" + d.token
    case Num(_) => OpenText(d.frames) + d.token
    case Lit(_) => OpenText(d.frames) + d.token
    case Colon =>
      if d.frames == [] || !Last(d.frames).ObjFrame? || Last(d.frames).key.None? then []
      else OpenText(Front(d.frames)) + Opened(Last(d.frames)) + Quoted(Last(d.frames).key.value)
    case After =>
      if d.frames != [] then OpenText(Front(d.frames)) + Head(Last(d.frames))
      else if d.root.Some? then DumpJson(d.root.value) else []
    case _ => OpenText(d.frames)
  }

  /** The frames are those of the stack, and a waiting key is a new one. */
  predicate Framed(frames: seq<Frame>, stack: seq<Elem>) {
    if frames == [] then stack == []
    else
      stack != [] &&
      match Last(frames)
      case ArrFrame(_) => Last(stack) == Array && Framed(Front(frames), Front(stack))
      case ObjFrame(_, None) => Last(stack) == Object && Framed(Front(frames), Front(stack))
      case ObjFrame(ms, Some(k)) =>
        && Last(stack) == Key && |stack| >= 2 && Last(Front(stack)) == Object
        && !HasMember(ms, k) && Framed(Front(frames), Front(Front(stack)))
  }

  predicate Suits(d: Dom, st: State) {
    var some := d.frames != [];
    match st.mode
    case Value => some ==> (Last(d.frames).ArrFrame? ==> !IsEmpty(Last(d.frames)))
    case FirstItem => some && Last(d.frames) == ArrFrame([])
    case FirstKey => some && Last(d.frames) == ObjFrame([], None)
    case NextKey => some && Last(d.frames).ObjFrame? && !IsEmpty(Last(d.frames))
    case After => if some then !IsEmpty(Last(d.frames)) else d.root.Some?
    case Lit(rest) => d.token + rest in ["true", "false", "null"]
    case _ => true
  }

  predicate InStep(d: Dom, st: State) {
    Framed(d.frames, st.stack) && Suits(d, st)
  }

  // ----- One value more

  lemma ItemsSnoc(items: seq<Json>, v: Json)
    ensures "[" + DumpItems(items + [v]) == Opened(ArrFrame(items)) + DumpJson(v)
  {
    hide DumpJson;
    var all := items + [v];
    assert all[..|all| - 1] == items && all[|all| - 1] == v;
  }

  lemma MembersSnoc(ms: Members, k: string, v: Json)
    ensures "{" + DumpMembers(ms + [(k, v)]) == Awaiting(ObjFrame(ms, Some(k))) + DumpJson(v)
  {
    hide DumpJson, Quoted;
    var all := ms + [(k, v)];
    assert all[..|all| - 1] == ms && all[|all| - 1] == (k, v);
  }

  lemma AddedItem(d: Dom, stack: seq<Elem>, items: seq<Json>, v: Json)
    requires Framed(d.frames, stack) && d.frames != [] && Last(d.frames) == ArrFrame(items)
    ensures var e := AddValue(d, v);
            && Framed(e.frames, CloseValue(stack)) && Suits(e, State(After, CloseValue(stack)))
            && TextOf(e, After) == OpenText(d.frames) + DumpJson(v)
  {
    hide DumpJson, DumpItems, OpenText;
    var rest, fr := Front(d.frames), ArrFrame(items);
    ItemsSnoc(items, v);
    FrontLast(rest, ArrFrame(items + [v]));
    OpenSnoc(d.frames);
    NoMore(Opened(fr));
    ThreeTexts(OpenText(rest), Opened(fr), DumpJson(v));
  }

  lemma AddedMember(d: Dom, stack: seq<Elem>, ms: Members, k: string, v: Json)
    requires Framed(d.frames, stack) && d.frames != [] && Last(d.frames) == ObjFrame(ms, Some(k))
    ensures var e := AddValue(d, v);
            && Framed(e.frames, CloseValue(stack)) && Suits(e, State(After, CloseValue(stack)))
            && TextOf(e, After) == OpenText(d.frames) + DumpJson(v)
  {
    hide DumpJson, DumpMembers, OpenText, HasMember, Assign, Awaiting;
    var rest, fr := Front(d.frames), ObjFrame(ms, Some(k));
    AssignNew(ms, k, v);
    MembersSnoc(ms, k, v);
    FrontLast(rest, ObjFrame(ms + [(k, v)], None));
    OpenSnoc(d.frames);
    ThreeTexts(OpenText(rest), Awaiting(fr), DumpJson(v));
  }

  lemma OpenSnoc(frames: seq<Frame>)
    requires frames != []
    ensures OpenText(frames) == OpenText(Front(frames)) + Awaiting(Last(frames))
  {
  }

  lemma ThreeTexts(a: string, b: string, c: string)
    ensures a + (b + c) == a + b + c
  {
  }

  /** A complete value is written where one was awaited. */
  lemma AddedText(d: Dom, stack: seq<Elem>, v: Json)
    requires Framed(d.frames, stack) && (stack != [] ==> Last(stack) != Object)
    ensures var e := AddValue(d, v);
            && Framed(e.frames, CloseValue(stack)) && Suits(e, State(After, CloseValue(stack)))
            && TextOf(e, After) == OpenText(d.frames) + DumpJson(v)
  {
    hide DumpJson, HasMember, Assign;
    if d.frames == [] {
      assert [] + DumpJson(v) == DumpJson(v);
    } else {
      hide AddValue, TextOf, OpenText;
      match Last(d.frames)
      case ArrFrame(items) => AddedItem(d, stack, items, v);
      case ObjFrame(ms, Some(k)) => AddedMember(d, stack, ms, k, v);
      case ObjFrame(ms, None) =>
    }
  }

  /** A container ends: its closer is written behind it. */
  lemma ClosedText(d: Dom, stack: seq<Elem>)
    requires Framed(d.frames, stack) && Nested(stack) && stack != [] && Last(stack) != Key
    ensures d.frames != []
    ensures var e := CloseFrame(d);
            && Framed(e.frames, EndContainer(stack)) && Suits(e, State(After, EndContainer(stack)))
            && TextOf(e, After) == OpenText(Front(d.frames)) + Head(Last(d.frames)) + (if Last(stack) == Array then "]" else "}")
  {
    hide AddValue, TextOf, DumpItems, DumpMembers, HasMember, OpenText;
    var inner := d.(frames := Front(d.frames));
    var fr := Last(d.frames);
    var v := match fr case ArrFrame(items) => JArr(items) case ObjFrame(ms, _) => JObj(ms);
    var closer := if Last(stack) == Array then "]" else "}";
    assert stack[..|stack| - 1] == Front(stack);
    AddedText(inner, Front(stack), v);
    assert DumpJson(v) == Head(fr) + closer;
    assert OpenText(inner.frames) + (Head(fr) + closer) == OpenText(inner.frames) + Head(fr) + closer;
  }

  /** What a character adds to the dump. */
  function Kept(st: State, c: char): string {
    if IsWs(c) && !st.mode.Str? then [] else [c]
  }

  /** Reading a character keeps the frames in step and writes just this character. */
  ghost predicate Goes(num: string -> string, d: Dom, st: State, c: char) {
    var e, t := Build(num, d, st, c), Step(st, c);
    InStep(e, t) && TextOf(e, t.mode) == TextOf(d, st.mode) + Kept(st, c)
  }

  lemma PushText(d: Dom, stack: seq<Elem>, fr: Frame)
    requires Framed(d.frames, stack) && (fr == ArrFrame([]) || fr == ObjFrame([], None))
    ensures Framed(d.frames + [fr], stack + [if fr.ArrFrame? then Array else Object])
    ensures OpenText(d.frames + [fr]) == OpenText(d.frames) + (if fr.ArrFrame? then "[" else "{")
  {
    FrontLast(d.frames, fr);
    FrontLast(stack, if fr.ArrFrame? then Array else Object);
    assert Head(fr) == if fr.ArrFrame? then "[" else "{";
  }

  lemma ScalarStart(d: Dom, stack: seq<Elem>, c: char)
    requires Framed(d.frames, stack) && StartValue(c, stack).mode != Dead && c != '"' && c != '{' && c != '['
    ensures var e, t := StartDom(d, c), StartValue(c, stack);
            InStep(e, t) && TextOf(e, t.mode) == OpenText(d.frames) + [c]
  {
    hide OpenText, Framed;
    LiteralStarts(c);
  }

  lemma LiteralStarts(c: char)
    ensures c == 't' ==> [c] + "rue" == "true"
    ensures c == 'f' ==> [c] + "alse" == "false"
    ensures c == 'n' ==> [c] + "ull" == "null"
  {
  }

  lemma StringStart(frames: seq<Frame>)
    ensures OpenText(frames) + "\"" + [] == OpenText(frames) + ['"']
  {
    hide OpenText;
  }

  lemma StartGoes(d: Dom, st: State, c: char)
    requires Framed(d.frames, st.stack) && StartValue(c, st.stack).mode != Dead
    ensures var e, t := StartDom(d, c), StartValue(c, st.stack);
            InStep(e, t) && TextOf(e, t.mode) == OpenText(d.frames) + [c]
  {
    hide OpenText, Framed;
    if c == '{' {
      PushText(d, st.stack, ObjFrame([], None));
      FrontLast(d.frames, ObjFrame([], None));
    } else if c == '[' {
      PushText(d, st.stack, ArrFrame([]));
      FrontLast(d.frames, ArrFrame([]));
    } else if c == '"' {
      StringStart(d.frames);
    } else {
      ScalarStart(d, st.stack, c);
    }
  }

  lemma NoMore(s: string)
    ensures s + [] == s
  {
  }

  lemma StartModesGo(num: string -> string, d: Dom, st: State, c: char)
    requires Fits(st) && InStep(d, st) && Step(st, c).mode != Dead && (st.mode.Value? || st.mode.FirstItem?)
    ensures Goes(num, d, st, c)
  {
    hide Nested, OpenText, StartValue, StartDom;
    NoMore(OpenText(d.frames));
    if st.mode.FirstItem? && c == ']' {
      ClosedText(d, st.stack);
      EmptyOpened(d.frames);
    } else if !IsWs(c) {
      StartGoes(d, st, c);
    }
  }

  /** In a new container nothing stands behind the bracket. */
  lemma EmptyOpened(frames: seq<Frame>)
    requires frames != [] && (Last(frames) == ArrFrame([]) || Last(frames) == ObjFrame([], None))
    ensures OpenText(frames) == OpenText(Front(frames)) + Head(Last(frames))
  {
  }

  lemma KeyModesGo(num: string -> string, d: Dom, st: State, c: char)
    requires Fits(st) && InStep(d, st) && Step(st, c).mode != Dead && (st.mode.FirstKey? || st.mode.NextKey?)
    ensures Goes(num, d, st, c)
  {
    hide Nested, OpenText;
    NoMore(OpenText(d.frames));
    if c == '}' {
      ClosedText(d, st.stack);
      EmptyOpened(d.frames);
    } else if c == '"' {
      NoMore(OpenText(d.frames) + "\"");
    }
  }

  lemma ColonGoes(num: string -> string, d: Dom, st: State, c: char)
    requires Fits(st) && InStep(d, st) && Step(st, c).mode != Dead && st.mode.Colon?
    ensures Goes(num, d, st, c)
  {
    hide Nested, HasMember, Quoted, Opened;
    var a := TextOf(d, Colon);
    NoMore(a);
    var fr := Last(d.frames);
    assert OpenText(Front(d.frames)) + (Opened(fr) + (Quoted(fr.key.value) + ":"))
        == OpenText(Front(d.frames)) + Opened(fr) + Quoted(fr.key.value) + ":";
  }

  /** Behind a value. */
  lemma AfterGoes(d: Dom, stack: seq<Elem>, c: char)
    requires Framed(d.frames, stack) && Nested(stack) && Suits(d, State(After, stack)) && AfterStep(c, stack).mode != Dead
    ensures var e, t := AfterDom(d, c), AfterStep(c, stack);
            InStep(e, t) && TextOf(e, t.mode) == TextOf(d, After) + (if IsWs(c) then [] else [c])
  {
    hide Nested, OpenText, CloseFrame, HasMember;
    NoMore(TextOf(d, After));
    if c == '}' || c == ']' {
      ClosedText(d, stack);
    } else if c == ',' {
      CommaText(d.frames);
      if Last(d.frames).ObjFrame? {
        assert Last(d.frames).key.None?;
      }
    }
  }

  lemma CommaText(frames: seq<Frame>)
    requires frames != [] && !IsEmpty(Last(frames)) && (Last(frames).ObjFrame? ==> Last(frames).key.None?)
    ensures OpenText(frames) == OpenText(Front(frames)) + Head(Last(frames)) + ","
  {
    hide Head;
    var fr := Last(frames);
    assert Awaiting(fr) == Head(fr) + "," + [] == Head(fr) + ",";
  }

  lemma TokenGoes(num: string -> string, d: Dom, st: State, c: char)
    requires InStep(d, st) && Step(st, c).mode != Dead
    requires st.mode.Str? && !(st.mode.s.Plain? && c == '"')
    ensures Goes(num, d, st, c)
  {
    hide OpenText, Framed;
    assert OpenText(d.frames) + "\"" + (d.token + [c]) == OpenText(d.frames) + "\"" + d.token + [c];
  }

  lemma QuoteGoes(num: string -> string, d: Dom, st: State)
    requires Fits(st) && InStep(d, st) && Fine(num, d, st, '"') && st.mode.Str? && st.mode.s.Plain?
    ensures Goes(num, d, st, '"')
  {
    hide OpenText, Nested, Unescape, Escape, HasMember, AddValue, Framed;
    var t := d.token;
    QuotedWritten(t);
    ThreeTexts(OpenText(d.frames), "\"" + t, "\"");
    ThreeTexts(OpenText(d.frames), "\"", t);
    if st.mode.isKey {
      FramedTop(d.frames, st.stack);
      KeyGoes(d, st.stack, Unescape(t));
    } else {
      AddedText(d, st.stack, JStr(Unescape(t)));
    }
  }

  lemma QuotedWritten(t: string)
    requires AsWritten(t)
    ensures Quoted(Unescape(t)) == "\"" + t + "\"" && DumpJson(JStr(Unescape(t))) == "\"" + t + "\""
  {
    hide Unescape, Escape;
  }

  lemma FramedTop(frames: seq<Frame>, stack: seq<Elem>)
    requires Framed(frames, stack) && stack != [] && Last(stack) == Object
    ensures frames != [] && Last(frames).ObjFrame? && Last(frames).key.None?
  {
  }

  lemma KeyGoes(d: Dom, stack: seq<Elem>, k: string)
    requires Framed(d.frames, stack) && stack != [] && Last(stack) == Object && !HasMember(Last(d.frames).members, k)
    ensures var fr := ObjFrame(Last(d.frames).members, Some(k));
            var e := Dom(Front(d.frames) + [fr], [], d.root);
            Framed(e.frames, stack + [Key]) && TextOf(e, Colon) == OpenText(d.frames) + Quoted(k)
  {
    hide HasMember, Quoted, DumpMembers;
    var fr := ObjFrame(Last(d.frames).members, Some(k));
    FrontLast(Front(d.frames), fr);
    FrontLast(stack, Key);
    NoMore(Opened(Last(d.frames)));
    assert Opened(fr) == Opened(Last(d.frames)) == Awaiting(Last(d.frames));
  }

  lemma NumGoes(num: string -> string, d: Dom, st: State, c: char)
    requires Fits(st) && InStep(d, st) && Fine(num, d, st, c) && Step(st, c).mode != Dead && st.mode.Num?
    ensures Goes(num, d, st, c)
  {
    hide OpenText, Nested, AddValue, AfterStep, AfterDom, NumStep;
    if NumStep(st.mode.n, c).Some? {
      assert OpenText(d.frames) + (d.token + [c]) == OpenText(d.frames) + d.token + [c];
      NotSpace(st.mode.n, c);
    } else {
      AddedText(d, st.stack, JNum(num(d.token)));
      ClosedNested(st.stack);
      AfterGoes(AddValue(d, JNum(num(d.token))), CloseValue(st.stack), c);
    }
  }

  lemma NotSpace(n: NumState, c: char)
    requires NumStep(n, c).Some?
    ensures !IsWs(c)
  {
  }

  lemma ClosedNested(stack: seq<Elem>)
    requires Nested(stack)
    ensures Nested(CloseValue(stack))
  {
  }

  lemma LiteralText(t: string)
    requires t in ["true", "false", "null"]
    ensures DumpJson(Literal(t)) == t
  {
  }

  lemma LitGoes(num: string -> string, d: Dom, st: State, c: char)
    requires Fits(st) && InStep(d, st) && Step(st, c).mode != Dead && st.mode.Lit?
    ensures Goes(num, d, st, c)
  {
    hide OpenText, Nested, AddValue, Literal, DumpJson;
    var rest := st.mode.rest;
    assert rest == [c] + rest[1..] && !IsWs(c);
    assert OpenText(d.frames) + (d.token + [c]) == OpenText(d.frames) + d.token + [c];
    assert d.token + rest == d.token + [c] + rest[1..];
    if |rest| == 1 {
      NoMore(d.token + [c]);
      LiteralText(d.token + [c]);
      AddedText(d, st.stack, Literal(d.token + [c]));
    }
  }

  lemma StepGoes(num: string -> string, d: Dom, st: State, c: char)
    requires Fits(st) && InStep(d, st) && Fine(num, d, st, c) && Step(st, c).mode != Dead
    ensures Goes(num, d, st, c)
  {
    hide Fits, InStep, Fine, Goes, Step;
    match st.mode
    case Value => StartModesGo(num, d, st, c);
    case FirstItem => StartModesGo(num, d, st, c);
    case FirstKey => KeyModesGo(num, d, st, c);
    case NextKey => KeyModesGo(num, d, st, c);
    case Colon => ColonGoes(num, d, st, c);
    case After => AfterModeGoes(num, d, st, c);
    case Str(_, s) => if s.Plain? && c == '"' { QuoteGoes(num, d, st); } else { TokenGoes(num, d, st, c); }
    case Num(_) => NumGoes(num, d, st, c);
    case Lit(_) => LitGoes(num, d, st, c);
    case Dead => DeadNever(st, c);
  }

  lemma AfterModeGoes(num: string -> string, d: Dom, st: State, c: char)
    requires Fits(st) && InStep(d, st) && Step(st, c).mode != Dead && st.mode.After?
    ensures Goes(num, d, st, c)
  {
    hide Nested, TextOf, Framed, AfterStep, AfterDom;
    AfterGoes(d, st.stack, c);
  }

  lemma DeadNever(st: State, c: char)
    requires st.mode.Dead?
    ensures Step(st, c).mode == Dead
  {
  }

  // ----- The dump of a whole text

  /** The text without the white space between its tokens. */
  function Compact(st: State, t: string): (d: string)
    ensures |d| <= |t|
    decreases |t|
  {
    if t == [] then [] else Kept(st, t[0]) + Compact(Step(st, t[0]), t[1..])
  }

  lemma CompactConcat(st: State, s: string, t: string)
    ensures Compact(st, s + t) == Compact(st, s) + Compact(Run(st, s), t)
    decreases |s|
  {
    hide Kept;
    if s == [] {
      assert s + t == t;
    } else {
      assert (s + t)[1..] == s[1..] + t;
      CompactConcat(Step(st, s[0]), s[1..], t);
    }
  }

  /** While a text is read, the dump of what has been read is the text without white space. */
  lemma {:induction false} ReadText(num: string -> string, d: Dom, st: State, t: string)
    requires Fits(st) && InStep(d, st) && FineFrom(num, d, st, t) && Run(st, t).mode != Dead
    ensures InStep(BuildAll(num, d, st, t), Run(st, t))
    ensures TextOf(BuildAll(num, d, st, t), Run(st, t).mode) == TextOf(d, st.mode) + Compact(st, t)
    decreases |t|
  {
    hide Fits, InStep, Fine, Build, Step, TextOf, Kept;
    if t == [] {
      NoMore(TextOf(d, st.mode));
    } else {
      var e, u, rest := Build(num, d, st, t[0]), Step(st, t[0]), t[1..];
      assert t == [t[0]] + rest;
      RunCons(st, t[0], rest);
      StaysAlive(u, rest);
      StepGoes(num, d, st, t[0]);
      StepFits(st, t[0]);
      ReadText(num, e, u, rest);
      var a, b, c := TextOf(d, st.mode), Kept(st, t[0]), Compact(u, rest);
      assert a + b + c == a + (b + c);
    }
  }

  lemma StaysAlive(st: State, t: string)
    requires Run(st, t).mode != Dead
    ensures st.mode != Dead
  {
    if st.mode.Dead? && t != [] {
      DeadRun(st, t);
    }
  }

  lemma DeadRun(st: State, t: string)
    requires st.mode.Dead?
    ensures Run(st, t).mode == Dead
  {
    if t != [] {
      DeadStays(t[1..]);
    }
  }

  lemma StartInStep()
    ensures InStep(EMPTY_DOM, START) && Fits(START) && TextOf(EMPTY_DOM, Value) == []
  {
  }

  /** A number that the end of the text completes is also as the library writes it. */
  predicate FineEnd(num: string -> string, t: string) {
    Run(START, t).mode.Num? ==> num(BuildAll(num, EMPTY_DOM, START, t).token) == BuildAll(num, EMPTY_DOM, START, t).token
  }

  /** Main result on values: if the tokens of a JSON text are as the library writes them and no object repeats a key, the
      dump of its value is the text without the white space between tokens. */
  lemma DumpIsText(num: string -> string, t: string)
    requires Accepts(t) && FineText(num, t) && FineEnd(num, t)
    ensures ValueOf(num, t).Some? && DumpJson(ValueOf(num, t).value) == Compact(START, t)
  {
    hide Run, DumpJson, Compact, BuildAll, FineFrom, OpenText, InStep, Fits;
    var st, d := Run(START, t), BuildAll(num, EMPTY_DOM, START, t);
    StartInStep();
    AcceptedAlive(st);
    ReadText(num, EMPTY_DOM, START, t);
    RunFits(START, t);
    assert [] + Compact(START, t) == Compact(START, t);
    WholeText(num, d, st);
  }

  lemma AcceptedAlive(st: State)
    requires Finish(st) == State(After, [])
    ensures st.mode != Dead && (st.mode.After? || st.mode.Num?)
  {
  }

  lemma WholeText(num: string -> string, d: Dom, st: State)
    requires Finish(st) == State(After, []) && InStep(d, st) && Fits(st) && (st.mode.Num? ==> num(d.token) == d.token)
    ensures var v := if st.mode.Num? then AddValue(d, JNum(num(d.token))).root else d.root;
            v.Some? && DumpJson(v.value) == TextOf(d, st.mode)
  {
    hide Nested, HasMember;
    if st.mode.Num? {
      AddedText(d, st.stack, JNum(num(d.token)));
    }
  }
}

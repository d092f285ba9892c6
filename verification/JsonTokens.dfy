/** The tokens of JSON: which texts may stand between quotes, and which are numbers (sections 6 and 7 of RFC 8259). */
module JsonTokens {
  import opened Text
  import opened Utf8
  import opened JsonText
  import opened JsonString

  // ----- Strings

  /** A text inside a string. */
  function StrRun(s: StrState, t: string): Option<StrState>
    decreases |t|
  {
    if t == [] then Some(s)
    else match StrStep(s, t[0]) case None => None case Some(s') => StrRun(s', t[1..])
  }

  lemma {:induction false} StrRunConcat(s: StrState, t: string, u: string)
    requires StrRun(s, t).Some?
    ensures StrRun(s, t + u) == StrRun(StrRun(s, t).value, u)
    decreases |t|
  {
    hide StrStep;
    if t == [] {
      assert t + u == u;
    } else {
      assert (t + u)[1..] == t[1..] + u;
      StrRunConcat(StrStep(s, t[0]).value, t[1..], u);
    }
  }

  lemma StrOne(s: StrState, c: char)
    ensures StrRun(s, [c]) == StrStep(s, c)
  {
  }

  lemma StrCons(s: StrState, c: char, t: string)
    requires StrStep(s, c).Some?
    ensures StrRun(s, [c] + t) == StrRun(StrStep(s, c).value, t)
  {
    hide StrStep;
    assert ([c] + t)[1..] == t;
  }

  /** An ASCII character, escaped where that is needed. */
  lemma AsciiRuns(c: char)
    requires IsAscii(c)
    ensures StrRun(Plain, EscapeChar(c)) == Some(Plain)
  {
    var e := EscapeChar(c);
    if |e| == 1 {
      StrOne(Plain, c);
    } else if |e| == 2 {
      StrCons(Plain, e[0], [e[1]]);
      StrOne(Back, e[1]);
      assert e == [e[0]] + [e[1]];
    } else {
      ControlRuns(c);
    }
  }

  lemma ControlRuns(c: char)
    requires c as int < 0x20
    ensures StrRun(Plain, "\\u00" + [HEX[c as int / 16], HEX[c as int % 16]]) == Some(Plain)
  {
    hide StrRun;
    var h, l := HEX[c as int / 16], HEX[c as int % 16];
    var u := ['0', '0', h, l];
    HexIsHex(c as int / 16);
    HexIsHex(c as int % 16);
    TwoFirst('\\', 'u', u);
    UnitMore([], u);
    NothingRuns();
    assert [] + u[..4] == u && u[4..] == [];
    assert "\\u00" + [h, l] == ['\\', 'u'] + u;
  }

  lemma HexIsHex(v: int)
    requires 0 <= v < 16
    ensures IsHex(HEX[v])
  {
    assert HEX[v] == if v < 10 then (48 + v) as char else (87 + v) as char;
  }

  /** The bytes of a longer character are written as they are. */
  lemma LongRuns(c: CodePoint)
    requires 0x80 <= c && !(0xD800 <= c < 0xE000)
    ensures StrRun(Plain, Encode(c)) == Some(Plain)
  {
    var e := Encode(c);
    var rs := Following(e[0]);
    LongShape(c);
    assert e == [e[0]] + e[1..];
    StrCons(Plain, e[0], e[1..]);
    OwedRuns(rs, e[1..]);
  }

  predicate Shaped(e: string)
    requires e != []
  {
    var rs := Following(e[0]);
    && !IsPlain(e[0]) && e[0] != '\\' && rs != [] && |rs| == |e| - 1
    && forall i :: 0 <= i < |rs| ==> InRange(e[1..][i], rs[i])
  }

  lemma ShapedTwo(c: CodePoint)
    requires 0x80 <= c <= 0x7FF
    ensures Shaped(Encode(c))
  {
    var e := Encode(c);
    assert e[1..] == [e[1]];
  }

  lemma ShapedThree(c: CodePoint)
    requires 0x800 <= c <= 0xFFFF && !(0xD800 <= c < 0xE000)
    ensures Shaped(Encode(c))
  {
    var e := Encode(c);
    assert e[1..] == [e[1], e[2]];
  }

  lemma ShapedFour(c: CodePoint)
    requires 0x10000 <= c
    ensures Shaped(Encode(c))
  {
    var e := Encode(c);
    assert e[1..] == [e[1], e[2], e[3]];
  }

  lemma LongShape(c: CodePoint)
    requires 0x80 <= c && !(0xD800 <= c < 0xE000)
    ensures Shaped(Encode(c))
  {
    hide Shaped, Encode;
    if c <= 0x7FF {
      ShapedTwo(c);
    } else if c <= 0xFFFF {
      ShapedThree(c);
    } else {
      ShapedFour(c);
    }
  }

  lemma {:induction false} OwedRuns(rs: seq<(int, int)>, t: string)
    requires rs != [] && |t| == |rs| && forall i :: 0 <= i < |rs| ==> InRange(t[i], rs[i])
    ensures StrRun(Owed(rs), t) == Some(Plain)
    decreases |rs|
  {
    if |rs| == 1 {
      assert t == [t[0]];
    } else {
      OwedRuns(rs[1..], t[1..]);
    }
  }

  lemma LongPlain(t: string)
    requires forall i :: 0 <= i < |t| ==> !IsAscii(t[i])
    ensures Escape(t) == t
  {
    assert NoEscapes(t);
    EscapePlain(t);
  }

  lemma CharRuns(c: CodePoint)
    requires !(0xD800 <= c < 0xE000)
    ensures StrRun(Plain, Escape(Encode(c))) == Some(Plain)
  {
    hide StrRun, EscapeChar;
    if c < 0x80 {
      AsciiRuns(Encode(c)[0]);
      assert Encode(c) == [Encode(c)[0]];
      assert Escape(Encode(c)) == EscapeChar(Encode(c)[0]) + [] == EscapeChar(Encode(c)[0]);
    } else {
      LongPlain(Encode(c));
      LongRuns(c);
    }
  }

  /** Well-formed text, escaped, stays inside the string. */
  lemma {:induction false} TextRuns(cs: seq<CodePoint>)
    requires Scalars(cs)
    ensures StrRun(Plain, Escape(EncodeAll(cs))) == Some(Plain)
  {
    hide StrRun, Encode, Escape;
    if cs == [] {
      EscapeNothing();
      NothingRuns();
    } else {
      CharRuns(cs[0]);
      TextRuns(cs[1..]);
      EscapeConcat(Encode(cs[0]), EncodeAll(cs[1..]));
      StrRunConcat(Plain, Escape(Encode(cs[0])), Escape(EncodeAll(cs[1..])));
    }
  }

  lemma NothingRuns()
    ensures StrRun(Plain, []) == Some(Plain)
  {
  }

  // ----- What may stand between quotes

  /** A character that needs no escape, an escape with a letter, one with a code outside the surrogates, or two with a surrogate
      pair. */
  datatype Piece = Raw(c: CodePoint) | Named(letter: char) | Code(unit: string) | Pair(high: string, low: string) {
    predicate Valid() {
      match this
      case Raw(c) => 0x20 <= c && c != 0x22 && c != 0x5C && !(0xD800 <= c < 0xE000)
      case Named(letter) => letter in {'"', '\\', '/', 'b', 'f', 'n', 'r', 't'}
      case Code(u) => |u| == 4 && AllHex(u) && !(0xD800 <= UnitAt(u, 0) < 0xE000)
      case Pair(h, l) =>
        && |h| == 4 && AllHex(h) && 0xD800 <= UnitAt(h, 0) < 0xDC00
        && |l| == 4 && AllHex(l) && 0xDC00 <= UnitAt(l, 0) < 0xE000
    }

    function Written(): string {
      match this
      case Raw(c) => Encode(c)
      case Named(letter) => ['\\', letter]
      case Code(u) => ['\\', 'u'] + u
      case Pair(h, l) => ['\\', 'u'] + (h + (['\\', 'u'] + l))
    }
  }

  function AllWritten(ps: seq<Piece>): string {
    if ps == [] then [] else ps[0].Written() + AllWritten(ps[1..])
  }

  predicate AllValid(ps: seq<Piece>) {
    forall i :: 0 <= i < |ps| ==> ps[i].Valid()
  }

  /** The first two digits tell whether a code is a surrogate. */
  lemma SurrogateDigits(u: string)
    requires |u| == 4 && AllHex(u)
    ensures HighDigits(u[0], u[1]) <==> 0xD800 <= UnitAt(u, 0) < 0xDC00
    ensures LowDigits(u[0], u[1]) <==> 0xDC00 <= UnitAt(u, 0) < 0xE000
  {
    var a, b, low := HexValue(u[0]), HexValue(u[1]), HexValue(u[2]) * 16 + HexValue(u[3]);
    DigitValue(u[0]);
    DigitValue(u[1]);
    assert UnitAt(u, 0) == (a * 16 + b) * 256 + low && 0 <= low < 256;
  }

  lemma DigitValue(c: char)
    requires IsHex(c)
    ensures HexValue(c) == 13 <==> c == 'd' || c == 'D'
    ensures 8 <= HexValue(c) < 12 <==> c == '8' || c == '9' || c == 'a' || c == 'b' || c == 'A' || c == 'B'
    ensures 12 <= HexValue(c) < 16 <==> 'c' <= c <= 'f' || 'C' <= c <= 'F'
  {
  }

  /** The digits of an escape, some of them read already. */
  lemma {:induction false} UnitMore(ds: string, t: string)
    requires |ds| <= 3 && AllHex(ds) && (|ds| >= 2 ==> !LowDigits(ds[0], ds[1]))
    ensures var k := 4 - |ds|;
            var u := ds + t[..if k <= |t| then k else |t|];
            StrRun(Unit(ds), t) == Some(Plain) <==>
              && k <= |t| && AllHex(u) && !LowDigits(u[0], u[1])
              && StrRun(if HighDigits(u[0], u[1]) then High(u) else Plain, t[k..]) == Some(Plain)
    decreases |t|
  {
    if t != [] {
      var c, k := t[0], 4 - |ds|;
      var u := ds + t[..if k <= |t| then k else |t|];
      assert u[|ds|] == c;
      assert IsHex(c) ==> AllHex(ds + [c]);
      assert (|ds| >= 1 ==> u[0] == ds[0]) && (|ds| >= 2 ==> u[1] == ds[1]) && (|ds| == 3 ==> u == ds + [c]);
      if IsHex(c) && !(|ds| == 1 && LowDigits(ds[0], c)) && |ds| < 3 {
        UnitMore(ds + [c], t[1..]);
        assert k <= |t| ==> ds + [c] + t[1..][..k - 1] == u && t[1..][k - 1..] == t[k..];
      }
    }
  }

  lemma {:induction false} LowMore(h: string, ds: string, t: string)
    requires |ds| <= 3 && AllHex(ds) && (|ds| >= 1 ==> ds[0] == 'd' || ds[0] == 'D') && (|ds| >= 2 ==> LowDigits(ds[0], ds[1]))
    ensures var k := 4 - |ds|;
            var u := ds + t[..if k <= |t| then k else |t|];
            StrRun(Low(h, ds), t) == Some(Plain) <==>
              k <= |t| && AllHex(u) && LowDigits(u[0], u[1]) && StrRun(Plain, t[k..]) == Some(Plain)
    decreases |t|
  {
    if t != [] {
      var c, k := t[0], 4 - |ds|;
      var u := ds + t[..if k <= |t| then k else |t|];
      assert u[|ds|] == c;
      assert IsHex(c) ==> AllHex(ds + [c]);
      if IsHex(c) && StrStep(Low(h, ds), c).Some? && |ds| < 3 {
        LowMore(h, ds + [c], t[1..]);
        assert k <= |t| ==> ds + [c] + t[1..][..k - 1] == u && t[1..][k - 1..] == t[k..];
      }
    }
  }

  /** The bytes that are owed. */
  lemma {:induction false} OwedMore(rs: seq<(int, int)>, t: string)
    requires rs != [] && StrRun(Owed(rs), t) == Some(Plain)
    ensures |rs| <= |t| && StrRun(Plain, t[|rs|..]) == Some(Plain)
    ensures forall i :: 0 <= i < |rs| ==> InRange(t[i], rs[i])
    decreases |t|
  {
    assert t != [];
    if |rs| > 1 {
      OwedMore(rs[1..], t[1..]);
      assert t[1..][|rs| - 1..] == t[|rs|..];
      forall i | 1 <= i < |rs|
        ensures InRange(t[i], rs[i])
      {
        assert t[1..][i - 1] == t[i] && rs[1..][i - 1] == rs[i];
      }
    }
  }

  /** Bytes in the ranges are a character. */
  lemma CharOfTwo(b: char, c: char) returns (cp: CodePoint)
    requires var rs := Following(b); |rs| == 1 && InRange(c, rs[0])
    ensures Raw(cp).Valid() && Encode(cp) == [b, c]
  {
    cp := (b as int - 0xC0) * 0x40 + (c as int - 0x80);
  }

  lemma CharOfThree(b: char, c: char, d: char) returns (cp: CodePoint)
    requires var rs := Following(b); |rs| == 2 && InRange(c, rs[0]) && InRange(d, rs[1])
    ensures Raw(cp).Valid() && Encode(cp) == [b, c, d]
  {
    var x, y, z := b as int - 0xE0, c as int - 0x80, d as int - 0x80;
    cp := x * 0x1000 + y * 0x40 + z;
    Sextets(x, y, z);
  }

  lemma CharOfFour(b: char, c: char, d: char, e: char) returns (cp: CodePoint)
    requires var rs := Following(b); |rs| == 3 && InRange(c, rs[0]) && InRange(d, rs[1]) && InRange(e, rs[2])
    ensures Raw(cp).Valid() && Encode(cp) == [b, c, d, e]
  {
    var w, x, y, z := b as int - 0xF0, c as int - 0x80, d as int - 0x80, e as int - 0x80;
    cp := w * 0x40000 + x * 0x1000 + y * 0x40 + z;
    Sextets(w * 0x40 + x, y, z);
    Sextets(w, x, y);
  }

  lemma Sextets(x: nat, y: nat, z: nat)
    requires y < 0x40 && z < 0x40
    ensures var v := x * 0x1000 + y * 0x40 + z; v / 0x1000 == x && v / 0x40 % 0x40 == y && v % 0x40 == z && v / 0x40 == x * 0x40 + y
  {
    var v := x * 0x1000 + y * 0x40 + z;
    assert v == (x * 0x40 + y) * 0x40 + z;
  }

  /** A longer character, read from the front. */
  lemma CharRead(t: string) returns (cp: CodePoint)
    requires t != [] && Following(t[0]) != [] && StrRun(Owed(Following(t[0])), t[1..]) == Some(Plain)
    ensures Raw(cp).Valid() && Encode(cp) <= t && StrRun(Plain, t[|Encode(cp)|..]) == Some(Plain)
  {
    hide StrRun, Encode, InRange;
    var rs := Following(t[0]);
    OwedMore(rs, t[1..]);
    var n := |rs| + 1;
    assert t[1..][|rs|..] == t[n..];
    if |rs| == 1 {
      cp := CharOfTwo(t[0], t[1]);
      assert t[..n] == [t[0], t[1]];
    } else if |rs| == 2 {
      cp := CharOfThree(t[0], t[1], t[2]);
      assert t[..n] == [t[0], t[1], t[2]];
    } else {
      cp := CharOfFour(t[0], t[1], t[2], t[3]);
      assert t[..n] == [t[0], t[1], t[2], t[3]];
    }
  }

  lemma TwoFirst(c: char, d: char, t: string)
    requires StrStep(Plain, c) == Some(Back) && d == 'u'
    ensures StrRun(Plain, [c, d] + t) == StrRun(Unit([]), t)
  {
    assert [c, d] + t == [c] + ([d] + t);
    StrCons(Plain, c, [d] + t);
    StrCons(Back, d, t);
  }

  lemma HighFirst(h: string, t: string)
    ensures StrRun(High(h), ['\\', 'u'] + t) == StrRun(Low(h, []), t)
  {
    assert ['\\', 'u'] + t == ['\\'] + (['u'] + t);
    StrCons(High(h), '\\', ['u'] + t);
    StrCons(HighBack(h), 'u', t);
  }

  lemma Slices(a: string, t: string)
    requires |a| == 4
    ensures (a + t)[..4] == a && (a + t)[4..] == t && [] + a == a
  {
  }

  lemma NoDigits()
    ensures AllHex([])
  {
  }

  /** Each piece may stand in a string. */
  lemma PieceRuns(p: Piece)
    requires p.Valid()
    ensures StrRun(Plain, p.Written()) == Some(Plain)
  {
    hide StrRun, AllHex, Encode, UnitAt;
    NoDigits();
    NothingRuns();
    match p
    case Raw(c) =>
      if c < 0x80 {
        RawAscii(c);
      } else {
        LongRuns(c);
      }
    case Named(letter) =>
      StrCons(Plain, '\\', [letter]);
      StrOne(Back, letter);
      assert ['\\', letter] == ['\\'] + [letter];
    case Code(u) =>
      SurrogateDigits(u);
      TwoFirst('\\', 'u', u);
      UnitMore([], u);
      assert u[..4] == u && [] + u == u && u[4..] == [];
    case Pair(h, l) =>
      SurrogateDigits(h);
      SurrogateDigits(l);
      var low := ['\\', 'u'] + l;
      TwoFirst('\\', 'u', h + low);
      UnitMore([], h + low);
      Slices(h, low);
      HighFirst(h, l);
      LowMore(h, [], l);
      assert l[..4] == l && [] + l == l && l[4..] == [];
  }

  lemma RawAscii(c: CodePoint)
    requires Raw(c).Valid() && c < 0x80
    ensures StrRun(Plain, Encode(c)) == Some(Plain)
  {
    StrOne(Plain, Encode(c)[0]);
    assert Encode(c) == [Encode(c)[0]];
  }

  lemma {:induction false} PiecesRun(ps: seq<Piece>)
    requires AllValid(ps)
    ensures StrRun(Plain, AllWritten(ps)) == Some(Plain)
  {
    hide StrRun, Piece.Written, Piece.Valid;
    if ps == [] {
      NothingRuns();
    } else {
      PieceRuns(ps[0]);
      PiecesRun(ps[1..]);
      StrRunConcat(Plain, ps[0].Written(), AllWritten(ps[1..]));
    }
  }

  /** The escape at the front. */
  lemma EscapeRead(t: string) returns (p: Piece)
    requires |t| > 0 && t[0] == '\\' && StrRun(Plain, t) == Some(Plain)
    ensures p.Valid() && p.Written() <= t && StrRun(Plain, t[|p.Written()|..]) == Some(Plain)
  {
    hide AllHex, UnitAt;
    NoDigits();
    assert |t| >= 2 && StrRun(Back, t[1..]) == Some(Plain);
    assert t[1..][0] == t[1] && t[1..][1..] == t[2..];
    if t[1] == 'u' {
      p := CodeRead(t);
    } else {
      p := Named(t[1]);
      assert t[..2] == ['\\', t[1]];
    }
  }

  lemma SliceBehind(t: string)
    requires 6 <= |t|
    ensures t[2..][4..] == t[6..]
  {
  }

  lemma WholeCode(t: string)
    requires |t| >= 6 && t[0] == '\\' && t[1] == 'u'
    ensures ['\\', 'u'] + t[2..6] == t[..6]
  {
  }

  lemma WholePair(t: string)
    requires |t| >= 12 && t[0] == '\\' && t[1] == 'u' && t[6] == '\\' && t[7] == 'u'
    ensures ['\\', 'u'] + (t[2..6] + (['\\', 'u'] + t[6..][2..6])) == t[..12] && t[6..][6..] == t[12..]
  {
  }

  lemma CodeRead(t: string) returns (p: Piece)
    requires |t| >= 2 && t[0] == '\\' && t[1] == 'u' && StrRun(Unit([]), t[2..]) == Some(Plain)
    ensures p.Valid() && p.Written() <= t && StrRun(Plain, t[|p.Written()|..]) == Some(Plain)
  {
    hide AllHex, UnitAt, StrRun;
    NoDigits();
    var r := t[2..];
    UnitMore([], r);
    var u := r[..4];
    assert [] + u == u;
    SurrogateDigits(u);
    SliceBehind(t);
    assert t[2..6] == u;
    if HighDigits(u[0], u[1]) {
      var l := HighRead(u, t[6..]);
      p := Pair(u, l);
      WholePair(t);
    } else {
      p := Code(u);
      WholeCode(t);
    }
  }

  lemma HighRead(h: string, t: string) returns (l: string)
    requires StrRun(High(h), t) == Some(Plain)
    ensures |t| >= 6 && t[0] == '\\' && t[1] == 'u' && l == t[2..6] && AllHex(l) && 0xDC00 <= UnitAt(l, 0) < 0xE000
    ensures StrRun(Plain, t[6..]) == Some(Plain)
  {
    hide AllHex, UnitAt;
    NoDigits();
    assert |t| >= 2 && t[0] == '\\' && StrRun(HighBack(h), t[1..]) == Some(Plain);
    assert t[1..][0] == t[1] && t[1..][1..] == t[2..];
    var r := t[2..];
    LowMore(h, [], r);
    l := r[..4];
    assert [] + l == l && l == t[2..6] && r[4..] == t[6..];
    SurrogateDigits(l);
  }

  /** The piece at the front. */
  lemma PieceRead(t: string) returns (p: Piece)
    requires t != [] && StrRun(Plain, t) == Some(Plain)
    ensures p.Valid() && p.Written() != [] && p.Written() <= t && StrRun(Plain, t[|p.Written()|..]) == Some(Plain)
  {
    hide Encode, Piece.Valid, Piece.Written;
    if t[0] == '\\' {
      p := EscapeRead(t);
    } else if IsPlain(t[0]) {
      PlainRead(t[0]);
      p := Raw(t[0] as int);
      assert t[..1] == [t[0]];
    } else {
      var cp := CharRead(t);
      p := Raw(cp);
    }
    WrittenRaw(p);
  }

  lemma PlainRead(c: char)
    requires IsPlain(c) && c != '\\'
    ensures Raw(c as int).Valid() && Raw(c as int).Written() == [c]
  {
  }

  lemma WrittenRaw(p: Piece)
    ensures p.Written() != []
    ensures p.Raw? ==> p.Written() == Encode(p.c)
  {
  }

  /** Main result on strings: a text may stand between quotes exactly if it is made of such pieces. */
  lemma StringExact(t: string)
    ensures StrRun(Plain, t) == Some(Plain) <==> exists ps: seq<Piece> :: AllValid(ps) && AllWritten(ps) == t
  {
    hide StrRun, AllWritten, AllValid;
    if ps: seq<Piece> :| AllValid(ps) && AllWritten(ps) == t {
      PiecesRun(ps);
    }
    if StrRun(Plain, t) == Some(Plain) {
      var ps := PiecesOf(t);
    }
  }

  lemma {:induction false} PiecesOf(t: string) returns (ps: seq<Piece>)
    requires StrRun(Plain, t) == Some(Plain)
    ensures AllValid(ps) && AllWritten(ps) == t
    decreases |t|
  {
    hide StrRun, Piece.Valid, Piece.Written;
    if t == [] {
      ps := [];
    } else {
      var p := PieceRead(t);
      var w := p.Written();
      var rest := PiecesOf(t[|w|..]);
      ps := [p] + rest;
      assert ps[1..] == rest;
      assert w + t[|w|..] == t;
    }
  }

  // ----- Numbers

  predicate AllDigits(s: string) {
    s != [] && forall i :: 0 <= i < |s| ==> IsDigit(s[i])
  }

  /** The parts of a number (section 6 of RFC 8259): sign, digits without a leading zero, fraction, exponent. */
  datatype Number = Number(minus: bool, whole: string, frac: Option<string>, exp: Option<(char, string, string)>) {
    predicate Valid() {
      && AllDigits(whole) && (whole[0] == '0' ==> |whole| == 1)
      && (frac.Some? ==> AllDigits(frac.value))
      && (exp.Some? ==> IsE(exp.value.0) && exp.value.1 in {"", "+", "-"} && AllDigits(exp.value.2))
    }

    function Fraction(): string {
      if frac.Some? then "." + frac.value else []
    }

    function Exponent(): string {
      if exp.Some? then [exp.value.0] + (exp.value.1 + exp.value.2) else []
    }

    function Written(): string {
      (if minus then "-" else []) + (whole + (Fraction() + Exponent()))
    }
  }

  ghost predicate IsNumber(t: string) {
    exists n: Number :: n.Valid() && n.Written() == t
  }

  function NumRun(n: NumState, t: string): Option<NumState>
    decreases |t|
  {
    if t == [] then Some(n)
    else match NumStep(n, t[0]) case None => None case Some(n') => NumRun(n', t[1..])
  }

  lemma {:induction false} NumRunConcat(n: NumState, t: string, u: string)
    requires NumRun(n, t).Some?
    ensures NumRun(n, t + u) == NumRun(NumRun(n, t).value, u)
    decreases |t|
  {
    hide NumStep;
    if t == [] {
      assert t + u == u;
    } else {
      assert (t + u)[1..] == t[1..] + u;
      NumRunConcat(NumStep(n, t[0]).value, t[1..], u);
    }
  }

  /** More digits change nothing. */
  lemma {:induction false} DigitsRun(n: NumState, t: string)
    requires n in {Int, Frac, ExpInt} && forall i :: 0 <= i < |t| ==> IsDigit(t[i])
    ensures NumRun(n, t) == Some(n)
    decreases |t|
  {
    if t != [] {
      DigitsRun(n, t[1..]);
    }
  }

  /** The first of several digits. */
  lemma FirstDigit(n: NumState, n': NumState, t: string)
    requires AllDigits(t) && n' in {Int, Frac, ExpInt} && NumStep(n, t[0]) == Some(n')
    ensures NumRun(n, t) == Some(n')
  {
    DigitsRun(n', t[1..]);
  }

  lemma NumCons(n: NumState, c: char, t: string)
    requires NumStep(n, c).Some?
    ensures NumRun(n, [c] + t) == NumRun(NumStep(n, c).value, t)
  {
    hide NumStep;
    assert ([c] + t)[1..] == t;
  }

  lemma FractionRuns(n: NumState, x: Number)
    requires x.Valid() && n in {Zero, Int}
    ensures NumRun(n, x.Fraction()) == Some(if x.frac.Some? then Frac else n)
  {
    if x.frac.Some? {
      FirstDigit(Dot, Frac, x.frac.value);
      NumCons(n, '.', x.frac.value);
    }
  }

  lemma ExponentRuns(n: NumState, x: Number)
    requires x.Valid() && n in {Zero, Int, Frac}
    ensures NumRun(n, x.Exponent()) == Some(if x.exp.Some? then ExpInt else n)
  {
    if x.exp.Some? {
      var (e, sign, ds) := x.exp.value;
      if sign == "" {
        assert sign + ds == ds;
        FirstDigit(Exp, ExpInt, ds);
      } else {
        FirstDigit(ExpSign, ExpInt, ds);
        NumCons(Exp, sign[0], ds);
        assert sign == [sign[0]];
      }
      NumCons(n, e, sign + ds);
    }
  }

  /** Behind the whole part. */
  lemma TailRuns(n: NumState, x: Number) returns (end: NumState)
    requires x.Valid() && n in {Zero, Int}
    ensures NumRun(n, x.Fraction() + x.Exponent()) == Some(end) && end.Complete()
  {
    FractionRuns(n, x);
    NumRunConcat(n, x.Fraction(), x.Exponent());
    var m := if x.frac.Some? then Frac else n;
    ExponentRuns(m, x);
    end := if x.exp.Some? then ExpInt else m;
  }

  /** The whole part, behind its first digit. */
  lemma WholeRuns(x: Number) returns (end: NumState)
    requires x.Valid()
    ensures NumRun(if x.whole[0] == '0' then Zero else Int, x.whole[1..] + (x.Fraction() + x.Exponent())) == Some(end) && end.Complete()
  {
    var n := if x.whole[0] == '0' then Zero else Int;
    end := TailRuns(n, x);
    if n == Int {
      DigitsRun(Int, x.whole[1..]);
    }
    NumRunConcat(n, x.whole[1..], x.Fraction() + x.Exponent());
  }

  predicate Starts(c: char) {
    !IsWs(c) && c !in {'"', '{', '[', ']'}
  }

  lemma DigitStarts(c: char, stack: seq<Elem>)
    requires IsDigit(c) || c == '-'
    ensures Starts(c)
    ensures StartValue(c, stack) == State(Num(if c == '-' then Minus else if c == '0' then Zero else Int), stack)
  {
  }

  lemma SignedText(whole: string, rest: string)
    requires whole != []
    ensures "-" + (whole + rest) == ['-'] + ([whole[0]] + (whole[1..] + rest))
    ensures [] + (whole + rest) == [whole[0]] + (whole[1..] + rest)
  {
    assert whole == [whole[0]] + whole[1..];
  }

  lemma HeadTail(c: char, t: string)
    ensures ([c] + t)[0] == c && ([c] + t)[1..] == t
  {
  }

  lemma MinusRuns(c: char, t: string)
    requires IsDigit(c)
    ensures NumRun(Minus, [c] + t) == NumRun(if c == '0' then Zero else Int, t)
  {
    NumCons(Minus, c, t);
  }

  /** A number begins as a value and is complete at its end. */
  lemma NumberRuns(t: string, stack: seq<Elem>) returns (first: NumState, end: NumState)
    requires IsNumber(t)
    ensures t != [] && Starts(t[0]) && StartValue(t[0], stack) == State(Num(first), stack)
    ensures NumRun(first, t[1..]) == Some(end) && end.Complete()
  {
    hide NumRun, Starts, StartValue;
    var x: Number :| x.Valid() && x.Written() == t;
    end := WholeRuns(x);
    var c, rest := x.whole[0], x.Fraction() + x.Exponent();
    var more := x.whole[1..] + rest;
    SignedText(x.whole, rest);
    DigitStarts('-', stack);
    DigitStarts(c, stack);
    HeadTail('-', [c] + more);
    HeadTail(c, more);
    MinusRuns(c, more);
    first := if x.minus then Minus else if c == '0' then Zero else Int;
  }

  predicate OnlyDigits(s: string) {
    forall i :: 0 <= i < |s| ==> IsDigit(s[i])
  }

  predicate Completes(n: NumState, t: string) {
    var e := NumRun(n, t);
    e.Some? && e.value.Complete()
  }

  lemma CompletesStep(n: NumState, t: string)
    requires Completes(n, t)
    ensures if t == [] then n.Complete() else NumStep(n, t[0]).Some? && Completes(NumStep(n, t[0]).value, t[1..])
  {
  }

  /** Behind the first digit of an exponent there are only digits. */
  lemma {:induction false} ExponentDigits(t: string)
    requires Completes(ExpInt, t)
    ensures OnlyDigits(t)
    decreases |t|
  {
    hide Completes;
    CompletesStep(ExpInt, t);
    if t != [] {
      ExponentDigits(t[1..]);
      assert forall i :: 1 <= i < |t| ==> t[i] == t[1..][i - 1];
    }
  }

  lemma OneMoreDigit(c: char, ds: string)
    requires IsDigit(c) && OnlyDigits(ds)
    ensures AllDigits([c] + ds) && OnlyDigits([c] + ds)
  {
  }

  lemma FirstOf(t: string, ds: string, rest: string)
    requires t != [] && t[1..] == ds + rest
    ensures t == [t[0]] + ds + rest
  {
    assert t == [t[0]] + t[1..];
  }

  lemma ExponentRead(t: string) returns (sign: string, ds: string)
    requires Completes(Exp, t)
    ensures sign in {"", "+", "-"} && AllDigits(ds) && t == sign + ds
  {
    hide Completes;
    CompletesStep(Exp, t);
    var c := t[0];
    assert t == [c] + t[1..];
    if c == '+' || c == '-' {
      var r := t[1..];
      CompletesStep(ExpSign, r);
      sign, ds := [c], r;
      ExponentDigits(r[1..]);
      OneMoreDigit(r[0], r[1..]);
      assert r == [r[0]] + r[1..];
      assert [c] == if c == '+' then "+" else "-";
    } else {
      ExponentDigits(t[1..]);
      OneMoreDigit(c, t[1..]);
      sign, ds := "", t;
      assert [] + t == t;
    }
  }

  /** Digits, and behind them perhaps an exponent. */
  lemma {:induction false} FractionRead(t: string) returns (ds: string, x: Number)
    requires Completes(Frac, t)
    ensures OnlyDigits(ds) && x.Valid() && x.frac == None && t == ds + x.Exponent()
    decreases |t|
  {
    hide Completes, Number.Exponent;
    CompletesStep(Frac, t);
    x := Number(false, "0", None, None);
    ds := [];
    NoTail(x);
    if t != [] {
      if IsDigit(t[0]) {
        ds, x := FractionRead(t[1..]);
        OneMoreDigit(t[0], ds);
        FirstOf(t, ds, x.Exponent());
        ds := [t[0]] + ds;
      } else {
        x := WithExponent(t);
      }
    }
  }

  lemma WithExponent(t: string) returns (x: Number)
    requires t != [] && IsE(t[0]) && Completes(Exp, t[1..])
    ensures x.Valid() && x.frac == None && t == [] + x.Exponent() && t == x.Exponent()
  {
    var sign, es := ExponentRead(t[1..]);
    x := Number(false, "0", None, Some((t[0], sign, es)));
    assert t == [t[0]] + (sign + es);
  }

  /** Behind the whole part: a fraction, an exponent, both or neither. */
  lemma TailRead(n: NumState, t: string) returns (x: Number)
    requires n in {Zero, Int} && Completes(n, t) && (t == [] || !IsDigit(t[0]))
    ensures x.Valid() && t == x.Fraction() + x.Exponent()
  {
    hide Number.Exponent, Completes;
    CompletesStep(n, t);
    x := Number(false, "0", None, None);
    if t == [] {
      NoTail(x);
    } else if t[0] == '.' {
      var r := t[1..];
      CompletesStep(Dot, r);
      var ds, y := FractionRead(r[1..]);
      OneMoreDigit(r[0], ds);
      x := y.(frac := Some([r[0]] + ds));
      SameExponent(x, y);
      assert r == [r[0]] + r[1..] && t == ['.'] + r;
      assert ['.'] + ([r[0]] + (ds + y.Exponent())) == "." + ([r[0]] + ds) + y.Exponent();
    } else {
      x := WithExponent(t);
    }
  }

  lemma NoTail(x: Number)
    requires x.frac == None && x.exp == None
    ensures x.Fraction() + x.Exponent() == [] && [] + x.Exponent() == []
  {
  }

  lemma SameExponent(x: Number, y: Number)
    requires x.exp == y.exp
    ensures x.Exponent() == y.Exponent()
  {
  }

  /** The rest of the whole part, and what comes behind it. */
  lemma {:induction false} WholeRead(t: string) returns (ds: string, x: Number)
    requires Completes(Int, t)
    ensures OnlyDigits(ds) && x.Valid() && t == ds + (x.Fraction() + x.Exponent())
    decreases |t|
  {
    hide Number.Exponent, Number.Fraction, Completes;
    CompletesStep(Int, t);
    if t != [] && IsDigit(t[0]) {
      ds, x := WholeRead(t[1..]);
      OneMoreDigit(t[0], ds);
      FirstOf(t, ds, x.Fraction() + x.Exponent());
      ds := [t[0]] + ds;
    } else {
      ds := [];
      x := TailRead(Int, t);
      assert t == [] + t;
    }
  }

  /** A number without its sign. */
  lemma PositiveRead(c: char, t: string) returns (x: Number)
    requires IsDigit(c) && Completes(if c == '0' then Zero else Int, t)
    ensures x.Valid() && !x.minus && [c] + t == x.whole + (x.Fraction() + x.Exponent())
  {
    hide Number.Exponent, Number.Fraction, Completes;
    var ds := [];
    if c == '0' {
      ZeroStops(t);
      x := TailRead(Zero, t);
      assert [] + t == t;
    } else {
      ds, x := WholeRead(t);
    }
    OneMoreDigit(c, ds);
    var y := x.(minus := false, whole := [c] + ds);
    SameTail(x, y);
    x := y;
    assert [c] + (ds + (x.Fraction() + x.Exponent())) == [c] + ds + (x.Fraction() + x.Exponent());
  }

  lemma ZeroStops(t: string)
    requires Completes(Zero, t)
    ensures t == [] || !IsDigit(t[0])
  {
    CompletesStep(Zero, t);
  }

  lemma SameTail(x: Number, y: Number)
    requires x.exp == y.exp && x.frac == y.frac
    ensures x.Exponent() == y.Exponent() && x.Fraction() == y.Fraction()
  {
  }

  /** The recogniser takes the text for a number that is complete. */
  predicate TakenForNumber(t: string) {
    t != [] && var st := StartValue(t[0], []); st.mode.Num? && Completes(st.mode.n, t[1..])
  }

  /** Main result on numbers: the recogniser takes a text for a number exactly if the grammar gives it. */
  lemma NumberExact(t: string)
    ensures TakenForNumber(t) <==> IsNumber(t)
  {
    hide NumRun;
    if IsNumber(t) {
      var first, end := NumberRuns(t, []);
    }
    if TakenForNumber(t) {
      var c, r := t[0], t[1..];
      assert t == [c] + r;
      if c == '-' {
        MinusStarts(r);
        var x := PositiveRead(r[0], r[1..]);
        assert r == [r[0]] + r[1..];
        assert x.(minus := true).Written() == "-" + (x.whole + (x.Fraction() + x.Exponent())) == t;
        assert x.(minus := true).Valid();
      } else {
        var x := PositiveRead(c, r);
        assert x.Written() == [] + (x.whole + (x.Fraction() + x.Exponent())) == t;
      }
    }
  }

  lemma MinusStarts(r: string)
    requires Completes(Minus, r)
    ensures r != [] && IsDigit(r[0]) && Completes(if r[0] == '0' then Zero else Int, r[1..])
  {
    CompletesStep(Minus, r);
  }
}

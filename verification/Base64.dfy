/** Base64 as base64.hpp reads and writes it (sections 4 and 5 of RFC 4648). A `char` stands for one byte. */
module Base64 {
  import opened Text

  datatype Alphabet = Auto | Standard | UrlSafe

  const PAD := '='

  type Six = v: int | 0 <= v < 64

  predicate Bytes(s: string) {
    forall i :: 0 <= i < |s| ==> s[i] as int < 256
  }

  /** The character for six bits; encoding with the automatic alphabet means the standard one. */
  function Digit(a: Alphabet, v: Six): char {
    if v < 26 then (65 + v) as char
    else if v < 52 then (97 + v - 26) as char
    else if v < 62 then (48 + v - 52) as char
    else if v == 62 then (if a == UrlSafe then '-' else '+')
    else (if a == UrlSafe then '_' else '/')
  }

  /** _base64_value: the value of a character and the alphabet that is then known; `None` is a base64_error. */
  function Value(a: Alphabet, c: char): Option<(Six, Alphabet)> {
    if 'A' <= c <= 'Z' then Some((c as int - 65, a))
    else if 'a' <= c <= 'z' then Some((c as int - 97 + 26, a))
    else if '0' <= c <= '9' then Some((c as int - 48 + 52, a))
    else if a != UrlSafe && c == '+' then Some((62, Standard))
    else if a != UrlSafe && c == '/' then Some((63, Standard))
    else if a != Standard && c == '-' then Some((62, UrlSafe))
    else if a != Standard && c == '_' then Some((63, UrlSafe))
    else None
  }

  // ----- Encoding

  function First(i0: char): Six requires i0 as int < 256 { i0 as int / 4 }
  function Second(i0: char, i1: int): Six requires i0 as int < 256 && 0 <= i1 < 256 { i0 as int % 4 * 16 + i1 / 16 }
  function Third(i1: char, i2: int): Six requires i1 as int < 256 && 0 <= i2 < 256 { i1 as int % 16 * 4 + i2 / 64 }
  function Fourth(i2: char): Six requires i2 as int < 256 { i2 as int % 64 }

  function Encode(s: string, a: Alphabet): string
    requires Bytes(s)
  {
    if s == [] then []
    else if |s| == 1 then [Digit(a, First(s[0])), Digit(a, Second(s[0], 0)), PAD, PAD]
    else if |s| == 2 then
      [Digit(a, First(s[0])), Digit(a, Second(s[0], s[1] as int)), Digit(a, Third(s[1], 0)), PAD]
    else
      [Digit(a, First(s[0])), Digit(a, Second(s[0], s[1] as int)), Digit(a, Third(s[1], s[2] as int)), Digit(a, Fourth(s[2]))]
      + Encode(s[3..], a)
  }

  /** What one turn of the loop takes from the rest and writes. */
  lemma EncodeTurn(s: string, i: nat, a: Alphabet)
    requires Bytes(s) && i < |s|
    ensures Bytes(s[i..]) && s[i] as int < 256
    ensures i + 1 == |s| ==> Encode(s[i..], a) == [Digit(a, First(s[i]))] + [Digit(a, Second(s[i], 0)), PAD, PAD]
    ensures i + 2 == |s| ==>
              Encode(s[i..], a) == [Digit(a, First(s[i]))] + [Digit(a, Second(s[i], s[i + 1] as int))] + [Digit(a, Third(s[i + 1], 0)), PAD]
    ensures i + 3 <= |s| ==>
              Bytes(s[i + 3..]) &&
              Encode(s[i..], a) == [Digit(a, First(s[i]))] + [Digit(a, Second(s[i], s[i + 1] as int))]
                                   + [Digit(a, Third(s[i + 1], s[i + 2] as int)), Digit(a, Fourth(s[i + 2]))] + Encode(s[i + 3..], a)
  {
    hide Digit, First, Second, Third, Fourth;
    var rest := s[i..];
    assert forall k :: 0 <= k < |rest| ==> rest[k] == s[i + k];
    if i + 3 <= |s| {
      assert rest[3..] == s[i + 3..];
    }
  }

  /** encode: one turn of the loop takes up to three bytes. */
  method EncodeText(s: string, a: Alphabet) returns (out: string)
    requires Bytes(s)
    ensures out == Encode(s, a)
  {
    hide Digit, First, Second, Third, Fourth, Encode;
    out := [];
    var i := 0;
    assert s[0..] == s;
    NothingEncoded(a);
    while i < |s|
      invariant 0 <= i <= |s| && out + Encode(s[i..], a) == Encode(s, a)
    {
      EncodeTurn(s, i, a);
      ghost var done := out;
      var i0 := s[i];
      i := i + 1;
      out := out + [Digit(a, First(i0))];
      if i == |s| {
        out := out + [Digit(a, Second(i0, 0)), PAD, PAD];
        break;
      }
      var i1 := s[i];
      i := i + 1;
      out := out + [Digit(a, Second(i0, i1 as int))];
      if i == |s| {
        out := out + [Digit(a, Third(i1, 0)), PAD];
        break;
      }
      var i2 := s[i];
      i := i + 1;
      out := out + [Digit(a, Third(i1, i2 as int)), Digit(a, Fourth(i2))];
    }
  }

  lemma NothingEncoded(a: Alphabet)
    ensures Encode([], a) == []
  {
  }

  // ----- Decoding

  predicate AllPad(s: string) {
    forall i :: 0 <= i < |s| ==> s[i] == PAD
  }

  /** The byte made of the low bits of the last value and the high bits of this one. */
  function OutByte(bits: nat, last: Six, part: Six): (b: char)
    requires bits == 2 || bits == 4 || bits == 6
    ensures b as int < 256
  {
    if bits == 6 then (last * 4 + part / 16) as char
    else if bits == 4 then (last % 16 * 16 + part / 4) as char
    else (last % 4 * 64 + part) as char
  }

  predicate OkBits(bits: nat) { bits == 0 || bits == 2 || bits == 4 || bits == 6 }

  /** The decoding loop from a state on; `strict` unless the behaviour is loose. */
  function Decode(s: string, a: Alphabet, last: Six, bits: nat, strict: bool): Option<string>
    requires OkBits(bits)
  {
    if s == [] then Some([])
    else if s[0] == PAD then if strict && !AllPad(s[1..]) then None else Some([])
    else
      match Value(a, s[0])
      case None => None
      case Some((part, a')) =>
        if bits >= 2 then
          match Decode(s[1..], a', part, bits - 2, strict)
          case None => None
          case Some(t) => Some([OutByte(bits, last, part)] + t)
        else Decode(s[1..], a', part, bits + 6, strict)
  }

  function DecodeText(s: string, a: Alphabet, strict: bool): Option<string> {
    Decode(s, a, 0, 0, strict)
  }

  // ----- Decoding undoes encoding

  lemma DigitValue(a: Alphabet, st: Alphabet, v: Six)
    requires a != Auto && (st == Auto || st == a)
    ensures Digit(a, v) != PAD && Value(st, Digit(a, v)).Some?
    ensures var r := Value(st, Digit(a, v)).value; r.0 == v && (r.1 == Auto || r.1 == a)
  {
  }

  lemma DecodeDigit(a: Alphabet, st: Alphabet, v: Six, rest: string, last: Six, bits: nat, strict: bool) returns (st': Alphabet)
    requires a != Auto && (st == Auto || st == a) && OkBits(bits)
    ensures st' == Auto || st' == a
    ensures bits == 0 ==> Decode([Digit(a, v)] + rest, st, last, bits, strict) == Decode(rest, st', v, 6, strict)
    ensures bits > 0 ==>
              var d := Decode(rest, st', v, bits - 2, strict);
              Decode([Digit(a, v)] + rest, st, last, bits, strict)
              == if d.None? then None else Some([OutByte(bits, last, v)] + d.value)
  {
    hide OutByte, Digit;
    DigitValue(a, st, v);
    st' := Value(st, Digit(a, v)).value.1;
    var s := [Digit(a, v)] + rest;
    assert s[0] == Digit(a, v) && s[1..] == rest;
  }

  lemma OutBytes(i0: char, i1: char, i2: char)
    requires i0 as int < 256 && i1 as int < 256 && i2 as int < 256
    ensures OutByte(6, First(i0), Second(i0, i1 as int)) == i0 && OutByte(6, First(i0), Second(i0, 0)) == i0
    ensures OutByte(4, Second(i0, i1 as int), Third(i1, i2 as int)) == i1 && OutByte(4, Second(i0, i1 as int), Third(i1, 0)) == i1
    ensures OutByte(2, Third(i1, i2 as int), Fourth(i2)) == i2
  {
  }

  lemma PadEnds(rest: string, st: Alphabet, last: Six, bits: nat, strict: bool)
    requires AllPad(rest) && OkBits(bits)
    ensures Decode(rest, st, last, bits, strict) == Some([])
  {
  }

  lemma Cons4(a: char, b: char, c: char, d: char, r: string)
    ensures [a] + ([b] + ([c] + ([d] + r))) == [a, b, c, d] + r
    ensures [a] + ([b] + ([c] + ([d] + []))) == [a, b, c, d]
  {
  }

  lemma Join(x: string, y: string, z: string)
    ensures x + y + z == x + (y + z)
  {
  }

  lemma {:induction false} DecodeEncoded(s: string, a: Alphabet, st: Alphabet, last: Six, strict: bool)
    requires Bytes(s) && a != Auto && (st == Auto || st == a)
    ensures Decode(Encode(s, a), st, last, 0, strict) == Some(s)
    decreases |s|
  {
    hide Decode, OutByte, Digit, First, Second, Third, Fourth;
    if s == [] {
      PadEnds([], st, last, 0, strict);
    } else if |s| == 1 {
      OneByte(s[0], a, st, last, strict);
      assert s == [s[0]];
    } else if |s| == 2 {
      TwoBytes(s[0], s[1], a, st, last, strict);
      assert s == [s[0], s[1]];
    } else {
      var rest := Encode(s[3..], a);
      var st' := ThreeBytes(s[0], s[1], s[2], rest, a, st, last, strict);
      DecodeEncoded(s[3..], a, st', Fourth(s[2]), strict);
      assert s == [s[0], s[1], s[2]] + s[3..];
    }
  }

  lemma OneByte(i0: char, a: Alphabet, st: Alphabet, last: Six, strict: bool)
    requires i0 as int < 256 && a != Auto && (st == Auto || st == a)
    ensures Decode([Digit(a, First(i0)), Digit(a, Second(i0, 0)), PAD, PAD], st, last, 0, strict) == Some([i0])
  {
    hide Decode, OutByte, Digit, First, Second;
    var v0, v1 := First(i0), Second(i0, 0);
    Cons4(Digit(a, v0), Digit(a, v1), PAD, PAD, []);
    assert [PAD] + ([PAD] + []) == [PAD, PAD];
    var st1 := DecodeDigit(a, st, v0, [Digit(a, v1)] + [PAD, PAD], last, 0, strict);
    var st2 := DecodeDigit(a, st1, v1, [PAD, PAD], v0, 6, strict);
    PadEnds([PAD, PAD], st2, v1, 4, strict);
    OutBytes(i0, i0, i0);
    assert [i0] + [] == [i0];
  }

  lemma TwoBytes(i0: char, i1: char, a: Alphabet, st: Alphabet, last: Six, strict: bool)
    requires i0 as int < 256 && i1 as int < 256 && a != Auto && (st == Auto || st == a)
    ensures Decode([Digit(a, First(i0)), Digit(a, Second(i0, i1 as int)), Digit(a, Third(i1, 0)), PAD], st, last, 0, strict)
         == Some([i0, i1])
  {
    hide Decode, OutByte, Digit, First, Second, Third;
    var v0, v1, v2 := First(i0), Second(i0, i1 as int), Third(i1, 0);
    Cons4(Digit(a, v0), Digit(a, v1), Digit(a, v2), PAD, []);
    var t2 := [Digit(a, v2)] + ([PAD] + []);
    var t1 := [Digit(a, v1)] + t2;
    var st1 := DecodeDigit(a, st, v0, t1, last, 0, strict);
    var st2 := DecodeDigit(a, st1, v1, t2, v0, 6, strict);
    var st3 := DecodeDigit(a, st2, v2, [PAD] + [], v1, 4, strict);
    PadEnds([PAD] + [], st3, v2, 2, strict);
    OutBytes(i0, i1, i1);
    assert [i0] + ([i1] + []) == [i0, i1];
  }

  lemma ThreeBytes(i0: char, i1: char, i2: char, rest: string, a: Alphabet, st: Alphabet, last: Six, strict: bool) returns (st4: Alphabet)
    requires i0 as int < 256 && i1 as int < 256 && i2 as int < 256 && a != Auto && (st == Auto || st == a)
    ensures st4 == Auto || st4 == a
    ensures var d := Decode(rest, st4, Fourth(i2), 0, strict);
            Decode([Digit(a, First(i0)), Digit(a, Second(i0, i1 as int)), Digit(a, Third(i1, i2 as int)), Digit(a, Fourth(i2))] + rest,
                   st, last, 0, strict)
            == if d.None? then None else Some([i0, i1, i2] + d.value)
  {
    hide Decode, OutByte, Digit, First, Second, Third, Fourth;
    var v0, v1, v2, v3 := First(i0), Second(i0, i1 as int), Third(i1, i2 as int), Fourth(i2);
    Cons4(Digit(a, v0), Digit(a, v1), Digit(a, v2), Digit(a, v3), rest);
    var t3 := [Digit(a, v3)] + rest;
    var t2 := [Digit(a, v2)] + t3;
    var t1 := [Digit(a, v1)] + t2;
    var st1 := DecodeDigit(a, st, v0, t1, last, 0, strict);
    var st2 := DecodeDigit(a, st1, v1, t2, v0, 6, strict);
    var st3 := DecodeDigit(a, st2, v2, t3, v1, 4, strict);
    st4 := DecodeDigit(a, st3, v3, rest, v2, 2, strict);
    OutBytes(i0, i1, i2);
    var d := Decode(rest, st4, v3, 0, strict);
    if d.Some? {
      Cons4(i0, i1, i2, i2, d.value);
      assert [i0] + ([i1] + ([i2] + d.value)) == [i0, i1, i2] + d.value;
    }
  }

  /** Main result: decoding undoes encoding for every byte string, with the alphabet given or found out, strict or not. */
  lemma RoundTrip(s: string, a: Alphabet, st: Alphabet, strict: bool)
    requires Bytes(s) && a != Auto && (st == Auto || st == a)
    ensures DecodeText(Encode(s, a), st, strict) == Some(s)
    ensures DecodeText(Encode(s, Auto), Standard, strict) == Some(s)
  {
    hide Decode, Encode;
    DecodeEncoded(s, a, st, 0, strict);
    DecodeEncoded(s, Standard, Standard, 0, strict);
    AutoIsStandard(s);
  }

  lemma AutoIsStandard(s: string)
    requires Bytes(s)
    ensures Encode(s, Auto) == Encode(s, Standard)
  {
  }

  // ----- What the digits mean

  /** The tables of RFC 4648: capital letters, small letters, figures, and two more that tell the alphabets apart. */
  lemma DigitTable(a: Alphabet, v: Six)
    ensures Digit(a, 0) == 'A' && Digit(a, 25) == 'Z' && Digit(a, 26) == 'a' && Digit(a, 51) == 'z'
    ensures Digit(a, 52) == '0' && Digit(a, 61) == '9'
    ensures Digit(a, 62) == (if a == UrlSafe then '-' else '+') && Digit(a, 63) == (if a == UrlSafe then '_' else '/')
    ensures v < 61 && v != 25 && v != 51 ==> Digit(a, v + 1) as int == Digit(a, v) as int + 1
  {
  }

  /** A character is read exactly if it is a digit of the alphabet, or of one of the two that are still open; the last two
      digits of an alphabet settle it. */
  lemma ValueExact(a: Alphabet, c: char, v: Six, b: Alphabet)
    ensures Value(a, c) == Some((v, b)) <==>
              if v < 62 then Digit(a, v) == c && b == a
              else b != Auto && (a == Auto || a == b) && Digit(b, v) == c
  {
  }

  // ----- Bits

  /** The `n` lowest bits of a number, the highest of them first. */
  function Bits(n: nat, v: nat): (r: seq<int>)
    ensures |r| == n
  {
    if n == 0 then [] else Bits(n - 1, v / 2) + [v % 2]
  }

  function Pow2(n: nat): nat {
    if n == 0 then 1 else 2 * Pow2(n - 1)
  }

  function Halved(v: nat, n: nat): nat {
    if n == 0 then v else Halved(v / 2, n - 1)
  }

  lemma {:induction false} BitsSplit(m: nat, n: nat, v: nat)
    ensures Bits(m + n, v) == Bits(m, Halved(v, n)) + Bits(n, v)
    decreases n
  {
    if n > 0 {
      BitsSplit(m, n - 1, v / 2);
      assert Bits(m, Halved(v, n)) + Bits(n - 1, v / 2) + [v % 2] == Bits(m, Halved(v, n)) + (Bits(n - 1, v / 2) + [v % 2]);
    } else {
      assert Bits(m, v) + [] == Bits(m, v);
    }
  }

  /** Higher bits do not matter. */
  lemma {:induction false} BitsSame(n: nat, v: nat, w: nat, q: nat)
    requires v == w + q * Pow2(n)
    ensures Bits(n, v) == Bits(n, w)
    decreases n
  {
    if n > 0 {
      var x := q * Pow2(n - 1);
      assert v == w + 2 * x;
      BitsSame(n - 1, v / 2, w / 2, q);
    }
  }

  function DigitBits(vs: seq<Six>): seq<int> {
    if vs == [] then [] else Bits(6, vs[0]) + DigitBits(vs[1..])
  }

  function ByteBits(s: string): seq<int> {
    if s == [] then [] else Bits(8, s[0] as int) + ByteBits(s[1..])
  }

  function Digits(a: Alphabet, vs: seq<Six>): string {
    if vs == [] then [] else [Digit(a, vs[0])] + Digits(a, vs[1..])
  }

  /** The last `bits` bits of a digit that have not gone into a byte yet. */
  function Rest(last: Six, bits: nat): seq<int> {
    Bits(bits, last)
  }

  /** All bits of the text, and what is left over of less than a byte. */
  ghost predicate IsBytesOf(s: string, bits: seq<int>) {
    Bytes(s) && ByteBits(s) <= bits && |bits| < |ByteBits(s)| + 8
  }

  lemma Powers()
    ensures Pow2(2) == 4 && Pow2(4) == 16 && Pow2(6) == 64
  {
    assert Pow2(1) == 2 && Pow2(2) == 4 && Pow2(3) == 8 && Pow2(4) == 16;
  }

  lemma HalvedTwice(v: nat, n: nat)
    requires n >= 2
    ensures Halved(v, n) == Halved(v / 4, n - 2) && Halved(v / 4, 0) == v / 4
  {
    assert Halved(v, n) == Halved(v / 2, n - 1) == Halved(v / 2 / 2, n - 2);
  }

  lemma HalvedIs(v: nat)
    ensures Halved(v, 0) == v && Halved(v, 2) == v / 4 && Halved(v, 4) == v / 16 && Halved(v, 6) == v / 64
  {
    HalvedTwice(v, 2);
    HalvedTwice(v, 4);
    HalvedTwice(v, 6);
    HalvedTwice(v / 4, 2);
    HalvedTwice(v / 4, 4);
    HalvedTwice(v / 16, 2);
  }

  /** The byte holds the low bits of one digit and the high bits of the next. */
  lemma OutByteParts(bits: nat, last: Six, part: Six) returns (q: nat, k: nat)
    requires bits == 2 || bits == 4 || bits == 6
    ensures var b := OutByte(bits, last, part) as int;
            last == Halved(b, 8 - bits) + q * Pow2(bits) && b == Halved(part, bits - 2) + k * Pow2(8 - bits)
  {
    Powers();
    var b := OutByte(bits, last, part) as int;
    HalvedIs(b);
    HalvedIs(part);
    if bits == 6 {
      q, k := 0, last;
    } else if bits == 4 {
      q, k := last / 16, last % 16;
    } else {
      q, k := last / 4, last % 4;
    }
  }

  lemma OutByteBits(bits: nat, last: Six, part: Six)
    requires bits == 2 || bits == 4 || bits == 6
    ensures Rest(last, bits) + Bits(6, part) == Bits(8, OutByte(bits, last, part) as int) + Rest(part, bits - 2)
  {
    hide OutByte, Bits, Halved, Pow2;
    var b, low := OutByte(bits, last, part) as int, Halved(part, bits - 2);
    var q, k := OutByteParts(bits, last, part);
    BitsSame(bits, last, Halved(b, 8 - bits), q);
    BitsSame(8 - bits, b, low, k);
    BitsSplit(bits, 8 - bits, b);
    BitsSplit(8 - bits, bits - 2, part);
    var x, y, z := Bits(bits, last), Bits(8 - bits, low), Bits(bits - 2, part);
    assert x + (y + z) == x + y + z;
  }

  lemma AllRest(part: Six)
    ensures Rest(part, 6) == Bits(6, part) && Rest(part, 0) == []
  {
  }

  /** What may follow the digits: nothing, or padding with, unless it is checked, anything behind it. */
  predicate EndOfDigits(tail: string, strict: bool) {
    tail == [] || (tail[0] == PAD && (strict ==> AllPad(tail)))
  }

  lemma EndRead(tail: string, a: Alphabet, last: Six, bits: nat, strict: bool)
    requires OkBits(bits) && EndOfDigits(tail, strict)
    ensures Decode(tail, a, last, bits, strict) == Some([])
  {
  }

  lemma ReadOne(a: Alphabet, v: Six, rest: string, last: Six, bits: nat, strict: bool)
    requires a != Auto && OkBits(bits)
    ensures var s := [Digit(a, v)] + rest;
            Decode(s, a, last, bits, strict) ==
            if bits == 0 then Decode(rest, a, v, 6, strict)
            else
              match Decode(rest, a, v, bits - 2, strict)
              case None => None
              case Some(t) => Some([OutByte(bits, last, v)] + t)
  {
    hide OutByte, Digit;
    DigitReads(a, v);
    var s := [Digit(a, v)] + rest;
    assert s[0] == Digit(a, v) && s[1..] == rest;
  }

  lemma DigitReads(a: Alphabet, v: Six)
    requires a != Auto
    ensures Digit(a, v) != PAD && Value(a, Digit(a, v)) == Some((v, a))
  {
  }

  /** Decoding regroups the bits of the digits into bytes. */
  lemma {:induction false} DecodedIsBits(vs: seq<Six>, tail: string, a: Alphabet, last: Six, bits: nat, strict: bool)
    requires a != Auto && OkBits(bits) && EndOfDigits(tail, strict)
    ensures var d := Decode(Digits(a, vs) + tail, a, last, bits, strict);
            d.Some? && IsBytesOf(d.value, Rest(last, bits) + DigitBits(vs))
    decreases |vs|
  {
    hide Digit, OutByte, Bits, Decode, Rest;
    RestLength(last, bits);
    if vs == [] {
      assert Digits(a, vs) + tail == tail;
      EndRead(tail, a, last, bits, strict);
      NoBytes(Rest(last, bits));
    } else {
      var v, more := vs[0], vs[1..];
      var rest := Digits(a, more) + tail;
      assert Digits(a, vs) + tail == [Digit(a, v)] + rest;
      ReadOne(a, v, rest, last, bits, strict);
      if bits == 0 {
        DecodedIsBits(more, tail, a, v, 6, strict);
        AllRest(v);
        AllRest(last);
        assert [] + DigitBits(vs) == DigitBits(vs);
      } else {
        DecodedIsBits(more, tail, a, v, bits - 2, strict);
        OutByteBits(bits, last, v);
        var d, b := Decode(rest, a, v, bits - 2, strict).value, OutByte(bits, last, v);
        OneMoreByte(b, d, Rest(v, bits - 2) + DigitBits(more));
        Regroup(Rest(last, bits), Bits(6, v), DigitBits(more), Bits(8, b as int), Rest(v, bits - 2));
      }
    }
  }

  lemma Regroup(a: seq<int>, b: seq<int>, c: seq<int>, d: seq<int>, e: seq<int>)
    requires a + b == d + e
    ensures a + (b + c) == d + (e + c)
  {
    assert a + (b + c) == a + b + c && d + (e + c) == d + e + c;
  }

  lemma RestLength(last: Six, bits: nat)
    ensures |Rest(last, bits)| == bits
  {
  }

  lemma NoBytes(bits: seq<int>)
    requires |bits| < 8
    ensures IsBytesOf([], bits) && bits + [] == bits
  {
  }

  lemma OneMoreByte(b: char, d: string, bits: seq<int>)
    requires b as int < 256 && IsBytesOf(d, bits)
    ensures IsBytesOf([b] + d, Bits(8, b as int) + bits)
  {
    hide Bits;
    assert ([b] + d)[1..] == d;
    assert forall i :: 0 <= i < |d| ==> ([b] + d)[i + 1] == d[i];
  }

  /** Main result on decoding: the digits of a text are read as one string of bits, eight to a byte. */
  lemma DecodeExact(vs: seq<Six>, tail: string, a: Alphabet, strict: bool)
    requires a != Auto && EndOfDigits(tail, strict)
    ensures var d := DecodeText(Digits(a, vs) + tail, a, strict);
            d.Some? && IsBytesOf(d.value, DigitBits(vs))
  {
    hide Decode, Digits;
    DecodedIsBits(vs, tail, a, 0, 0, strict);
    AllRest(0);
    assert [] + DigitBits(vs) == DigitBits(vs);
  }

  /** Anything else in the text, and anything but padding behind padding where that is checked, is refused. */
  lemma {:induction false} DecodeRefuses(vs: seq<Six>, tail: string, a: Alphabet, last: Six, bits: nat, strict: bool)
    requires a != Auto && OkBits(bits) && tail != []
    requires if tail[0] == PAD then strict && !AllPad(tail) else Value(a, tail[0]).None?
    ensures Decode(Digits(a, vs) + tail, a, last, bits, strict) == None
    decreases |vs|
  {
    hide Digit, OutByte;
    if vs == [] {
      assert Digits(a, vs) + tail == tail;
      if tail[0] == PAD && AllPad(tail[1..]) {
        PadCons(tail);
      }
    } else {
      var rest := Digits(a, vs[1..]) + tail;
      assert Digits(a, vs) + tail == [Digit(a, vs[0])] + rest;
      ReadOne(a, vs[0], rest, last, bits, strict);
      DecodeRefuses(vs[1..], tail, a, vs[0], if bits == 0 then 6 else bits - 2, strict);
    }
  }

  lemma PadCons(s: string)
    requires s != [] && s[0] == PAD && AllPad(s[1..])
    ensures AllPad(s)
  {
    forall i | 0 <= i < |s|
      ensures s[i] == PAD
    {
      assert i > 0 ==> s[i] == s[1..][i - 1];
    }
  }

  /** The padding that fills the last group of four. */
  function Padding(n: nat): string {
    if n % 3 == 1 then [PAD, PAD] else if n % 3 == 2 then [PAD] else []
  }

  lemma ByteParts(i: nat)
    requires i < 256
    ensures Bits(8, i) == Bits(6, i / 4) + Bits(2, i) == Bits(4, i / 16) + Bits(4, i) == Bits(2, i / 64) + Bits(6, i % 64)
  {
    hide Bits, Halved, Pow2;
    Powers();
    HalvedIs(i);
    BitsSplit(6, 2, i);
    BitsSplit(4, 4, i);
    BitsSplit(2, 6, i);
    BitsSame(6, i, i % 64, i / 64);
  }

  /** The digit that ends one byte with its two or four low bits and begins the next. */
  lemma DigitParts(i: nat, j: nat)
    requires i < 256 && j < 256
    ensures Bits(2, i) + Bits(4, j / 16) == Bits(6, i % 4 * 16 + j / 16)
    ensures Bits(4, i) + Bits(2, j / 64) == Bits(6, i % 16 * 4 + j / 64)
  {
    hide Bits, Pow2;
    Powers();
    DigitPart(2, 4, i, j / 16);
    DigitPart(4, 2, i, j / 64);
  }

  lemma DigitPart(m: nat, n: nat, i: nat, h: nat)
    requires (m == 2 && n == 4 && h < 16) || (m == 4 && n == 2 && h < 4)
    ensures Bits(m, i) + Bits(n, h) == Bits(6, i % Pow2(m) * Pow2(n) + h)
  {
    hide Bits, Halved, Pow2;
    Powers();
    var r := i % Pow2(m);
    var u := r * Pow2(n) + h;
    HalvedIs(u);
    assert Halved(u, n) == r;
    BitsSplit(m, n, u);
    BitsSame(m, i, r, i / Pow2(m));
    BitsSame(n, u, h, r);
  }

  lemma GroupBits(i0: char, i1: char, i2: char)
    requires i0 as int < 256 && i1 as int < 256 && i2 as int < 256
    ensures Bits(8, i0 as int) + (Bits(8, i1 as int) + Bits(8, i2 as int))
         == Bits(6, First(i0)) + (Bits(6, Second(i0, i1 as int)) + (Bits(6, Third(i1, i2 as int)) + Bits(6, Fourth(i2))))
    ensures Bits(8, i0 as int) + Bits(4, 0) == Bits(6, First(i0)) + Bits(6, Second(i0, 0))
    ensures Bits(8, i0 as int) + Bits(8, i1 as int) + Bits(2, 0)
         == Bits(6, First(i0)) + Bits(6, Second(i0, i1 as int)) + Bits(6, Third(i1, 0))
  {
    hide Bits;
    var a, b, c := i0 as int, i1 as int, i2 as int;
    ByteParts(a);
    ByteParts(b);
    ByteParts(c);
    DigitParts(a, b);
    DigitParts(a, 0);
    DigitParts(b, c);
    DigitParts(b, 0);
    var a6, a2, b4, bl, c2, c6 := Bits(6, a / 4), Bits(2, a), Bits(4, b / 16), Bits(4, b), Bits(2, c / 64), Bits(6, c % 64);
    assert (a6 + a2) + ((b4 + bl) + (c2 + c6)) == a6 + ((a2 + b4) + ((bl + c2) + c6));
    var zero4, zero2 := Bits(4, 0), Bits(2, 0);
    assert (a6 + a2) + zero4 == a6 + (a2 + zero4);
    assert (a6 + a2) + (b4 + bl) + zero2 == a6 + (a2 + b4) + (bl + zero2);
  }

  /** The zeros that fill the last digit. */
  function Fill(n: nat): seq<int> {
    Bits(if n % 3 == 1 then 4 else if n % 3 == 2 then 2 else 0, 0)
  }

  /** Main result on encoding: the bits of the text, six to a digit, the last digit filled with zeros and the last group
      with padding. */
  lemma {:induction false} EncodeExact(s: string, a: Alphabet) returns (vs: seq<Six>)
    requires Bytes(s)
    ensures Encode(s, a) == Digits(a, vs) + Padding(|s|)
    ensures DigitBits(vs) == ByteBits(s) + Fill(|s|)
    decreases |s|
  {
    hide Digit, First, Second, Third, Fourth, Bits;
    if s == [] {
      vs := [];
      assert Fill(0) == [];
    } else if |s| == 1 {
      vs := [First(s[0]), Second(s[0], 0)];
      OneBits(s, vs);
      DigitsOfTwo(a, vs);
    } else if |s| == 2 {
      vs := [First(s[0]), Second(s[0], s[1] as int), Third(s[1], 0)];
      TwoBits(s, vs);
      DigitsOfThree(a, vs);
    } else {
      var more := EncodeExact(s[3..], a);
      vs := [First(s[0]), Second(s[0], s[1] as int), Third(s[1], s[2] as int), Fourth(s[2])] + more;
      OneMoreGroup(s, a, more);
    }
  }

  lemma OneMoreGroup(s: string, a: Alphabet, more: seq<Six>)
    requires Bytes(s) && |s| >= 3
    requires Encode(s[3..], a) == Digits(a, more) + Padding(|s[3..]|) && DigitBits(more) == ByteBits(s[3..]) + Fill(|s[3..]|)
    ensures var g := [First(s[0]), Second(s[0], s[1] as int), Third(s[1], s[2] as int), Fourth(s[2])];
            && Encode(s, a) == Digits(a, g + more) + Padding(|s|)
            && DigitBits(g + more) == ByteBits(s) + Fill(|s|)
  {
    hide Digit, First, Second, Third, Fourth, Bits, Digits, DigitBits, ByteBits;
    var g := [First(s[0]), Second(s[0], s[1] as int), Third(s[1], s[2] as int), Fourth(s[2])];
    assert |s| % 3 == |s[3..]| % 3;
    FourDigits(a, g, more);
    ThreeBits(s, g, more, Fill(|s|));
    var x, y := [Digit(a, g[0]), Digit(a, g[1]), Digit(a, g[2]), Digit(a, g[3])], Digits(a, more);
    assert x + (y + Padding(|s|)) == x + y + Padding(|s|);
  }

  lemma DigitsOfTwo(a: Alphabet, vs: seq<Six>)
    requires |vs| == 2
    ensures Digits(a, vs) + [PAD, PAD] == [Digit(a, vs[0]), Digit(a, vs[1]), PAD, PAD]
  {
    hide Digit;
    assert vs[1..] == [vs[1]] && [vs[1]][1..] == [];
    assert Digits(a, [vs[1]]) == [Digit(a, vs[1])];
  }

  lemma DigitsOfThree(a: Alphabet, vs: seq<Six>)
    requires |vs| == 3
    ensures Digits(a, vs) + [PAD] == [Digit(a, vs[0]), Digit(a, vs[1]), Digit(a, vs[2]), PAD]
  {
    hide Digit;
    assert vs[1..][1..] == [vs[2]] && [vs[2]][1..] == [];
    assert Digits(a, [vs[2]]) == [Digit(a, vs[2])];
    assert Digits(a, vs[1..]) == [Digit(a, vs[1])] + Digits(a, vs[1..][1..]);
  }

  lemma Cons(a: Alphabet, v: Six, more: seq<Six>)
    ensures Digits(a, [v] + more) == [Digit(a, v)] + Digits(a, more) && DigitBits([v] + more) == Bits(6, v) + DigitBits(more)
  {
    assert ([v] + more)[1..] == more;
  }

  lemma ByteCons(b: char, s: string)
    ensures ByteBits([b] + s) == Bits(8, b as int) + ByteBits(s)
  {
    assert ([b] + s)[1..] == s;
  }

  lemma FourDigits(a: Alphabet, g: seq<Six>, more: seq<Six>)
    requires |g| == 4
    ensures Digits(a, g + more) == [Digit(a, g[0]), Digit(a, g[1]), Digit(a, g[2]), Digit(a, g[3])] + Digits(a, more)
    ensures DigitBits(g + more) == Bits(6, g[0]) + (Bits(6, g[1]) + (Bits(6, g[2]) + (Bits(6, g[3]) + DigitBits(more))))
  {
    hide Digit, Digits, Bits, DigitBits;
    var m3 := [g[3]] + more;
    var m2 := [g[2]] + m3;
    var m1 := [g[1]] + m2;
    assert g + more == [g[0]] + m1;
    Cons(a, g[0], m1);
    Cons(a, g[1], m2);
    Cons(a, g[2], m3);
    Cons(a, g[3], more);
  }

  lemma OneBits(s: string, vs: seq<Six>)
    requires Bytes(s) && |s| == 1 && vs == [First(s[0]), Second(s[0], 0)]
    ensures DigitBits(vs) == ByteBits(s) + Bits(4, 0)
  {
    hide First, Second, Bits;
    GroupBits(s[0], s[0], s[0]);
    assert s[1..] == [] && vs[1..] == [vs[1]] && [vs[1]][1..] == [];
    assert DigitBits([vs[1]]) == Bits(6, vs[1]) + [] == Bits(6, vs[1]);
    assert ByteBits(s) == Bits(8, s[0] as int) + [] == Bits(8, s[0] as int);
  }

  lemma TwoBits(s: string, vs: seq<Six>)
    requires Bytes(s) && |s| == 2 && vs == [First(s[0]), Second(s[0], s[1] as int), Third(s[1], 0)]
    ensures DigitBits(vs) == ByteBits(s) + Bits(2, 0)
  {
    hide First, Second, Third, Bits;
    GroupBits(s[0], s[1], s[1]);
    assert s[1..] == [s[1]] && [s[1]][1..] == [] && vs[1..] == [vs[1], vs[2]] && vs[1..][1..] == [vs[2]] && [vs[2]][1..] == [];
    assert DigitBits([vs[2]]) == Bits(6, vs[2]) + [] == Bits(6, vs[2]);
    assert DigitBits(vs[1..]) == Bits(6, vs[1]) + Bits(6, vs[2]);
    assert ByteBits([s[1]]) == Bits(8, s[1] as int) + [] == Bits(8, s[1] as int);
    assert Bits(6, vs[0]) + (Bits(6, vs[1]) + Bits(6, vs[2])) == Bits(6, vs[0]) + Bits(6, vs[1]) + Bits(6, vs[2]);
  }

  lemma ThreeBits(s: string, g: seq<Six>, more: seq<Six>, x: seq<int>)
    requires Bytes(s) && |s| >= 3 && g == [First(s[0]), Second(s[0], s[1] as int), Third(s[1], s[2] as int), Fourth(s[2])]
    requires DigitBits(more) == ByteBits(s[3..]) + x
    ensures DigitBits(g + more) == ByteBits(s) + x
  {
    hide First, Second, Third, Fourth, Bits, DigitBits, ByteBits;
    GroupBits(s[0], s[1], s[2]);
    FourDigits(Standard, g, more);
    var s3 := s[3..];
    assert s == [s[0]] + ([s[1]] + ([s[2]] + s3));
    ByteCons(s[0], [s[1]] + ([s[2]] + s3));
    ByteCons(s[1], [s[2]] + s3);
    ByteCons(s[2], s3);
    FourAndThree(Bits(6, g[0]), Bits(6, g[1]), Bits(6, g[2]), Bits(6, g[3]),
                 Bits(8, s[0] as int), Bits(8, s[1] as int), Bits(8, s[2] as int), ByteBits(s3), x);
  }

  lemma FourAndThree(d0: seq<int>, d1: seq<int>, d2: seq<int>, d3: seq<int>, b0: seq<int>, b1: seq<int>, b2: seq<int>,
                     z: seq<int>, x: seq<int>)
    requires b0 + (b1 + b2) == d0 + (d1 + (d2 + d3))
    ensures d0 + (d1 + (d2 + (d3 + (z + x)))) == b0 + (b1 + (b2 + z)) + x
  {
    var y := z + x;
    assert d0 + (d1 + (d2 + (d3 + y))) == (d0 + (d1 + (d2 + d3))) + y;
    assert b0 + (b1 + (b2 + z)) + x == (b0 + (b1 + b2)) + y;
  }

  // ----- Sizes

  function RequiredEncodeSize(n: nat): nat { (n / 3 + (if n % 3 != 0 then 1 else 0)) * 4 }
  function MaxDecodeSize(n: nat): nat { (n / 4 + (if n % 4 != 0 then 1 else 0)) * 3 }

  lemma ThreeLess(n: nat)
    requires n >= 3
    ensures RequiredEncodeSize(n) == RequiredEncodeSize(n - 3) + 4
  {
    assert n / 3 == (n - 3) / 3 + 1 && n % 3 == (n - 3) % 3;
  }

  lemma {:induction false} EncodedSize(s: string, a: Alphabet)
    requires Bytes(s)
    ensures |Encode(s, a)| == RequiredEncodeSize(|s|)
    decreases |s|
  {
    hide Digit, First, Second, Third, Fourth;
    if |s| >= 3 {
      EncodedSize(s[3..], a);
      ThreeLess(|s|);
    }
  }

  /** Every six bits read make at most six bits of output. */
  lemma {:induction false} DecodedBits(s: string, a: Alphabet, last: Six, bits: nat, strict: bool)
    requires OkBits(bits) && Decode(s, a, last, bits, strict).Some?
    ensures 8 * |Decode(s, a, last, bits, strict).value| <= 6 * |s| + bits
    decreases |s|
  {
    hide OutByte;
    if s != [] && s[0] != PAD {
      var r := Value(a, s[0]).value;
      DecodedBits(s[1..], r.1, r.0, if bits >= 2 then bits - 2 else bits + 6, strict);
    }
  }

  /** The bound is the number of bytes in the groups of four that the text begins. */
  lemma MaxIsGroups(n: nat, k: nat)
    requires n <= 4 * k && (k > 0 ==> 4 * (k - 1) < n)
    ensures MaxDecodeSize(n) == 3 * k
  {
  }

  lemma DecodedSize(s: string, a: Alphabet, strict: bool)
    requires DecodeText(s, a, strict).Some?
    ensures |DecodeText(s, a, strict).value| <= MaxDecodeSize(|s|)
  {
    DecodedBits(s, a, 0, 0, strict);
  }

  // ----- Decoding in place

  /** decode with the output over the input: the write position stays behind the read position, so no character is
      overwritten before it is read, and the result is the decoded text. */
  method DecodeInPlace(buf: array<char>, a: Alphabet, strict: bool) returns (r: Option<nat>)
    modifies buf
    ensures r.Some? <==> DecodeText(old(buf[..]), a, strict).Some?
    ensures r.Some? ==> r.value <= buf.Length && buf[..r.value] == DecodeText(old(buf[..]), a, strict).value
  {
    hide OutByte, Value;
    ghost var text := buf[..];
    ghost var whole := DecodeText(text, a, strict);
    var i, o, alpha, last: Six, bits := 0, 0, a, 0, 0;
    assert text[0..] == text;
    NothingDone(whole);
    assert buf[..0] == [];
    while i < buf.Length
      invariant 0 <= o <= i <= buf.Length == |text| && OkBits(bits) && 8 * o + bits == 6 * i
      invariant forall k :: i <= k < |text| ==> buf[k] == text[k]
      invariant After(whole, buf[..o], Decode(text[i..], alpha, last, bits, strict))
    {
      ghost var rest := text[i..];
      assert rest[0] == buf[i] && rest[1..] == text[i + 1..];
      var c := buf[i];
      i := i + 1;
      if c == PAD {
        if strict {
          assert text[i..] == rest[1..];
          assert buf[i..] == text[i..];
          var bad := AnyOther(buf, i);
          if bad { return None; }
        }
        assert buf[..o] + [] == buf[..o];
        return Some(o);
      }
      var v := Value(alpha, c);
      if v.None? { return None; }
      var part := v.value.0;
      ghost var done := buf[..o];
      if bits >= 2 {
        ghost var tail := Decode(rest[1..], v.value.1, part, bits - 2, strict);
        OneMore(whole, done, OutByte(bits, last, part), tail);
        buf[o] := OutByte(bits, last, part);
        o := o + 1;
        bits := bits - 2;
        assert buf[..o] == done + [buf[o - 1]];
      } else {
        bits := bits + 6;
      }
      alpha, last := v.value.1, part;
    }
    assert buf[..o] + [] == buf[..o];
    return Some(o);
  }

  /** The whole result is what is done and what is still to come. */
  ghost predicate After(whole: Option<string>, done: string, rest: Option<string>) {
    whole == if rest.None? then None else Some(done + rest.value)
  }

  lemma NothingDone(whole: Option<string>)
    ensures After(whole, [], whole)
  {
    if whole.Some? {
      assert [] + whole.value == whole.value;
    }
  }

  lemma OneMore(whole: Option<string>, done: string, b: char, rest: Option<string>)
    ensures After(whole, done, if rest.None? then None else Some([b] + rest.value)) ==> After(whole, done + [b], rest)
  {
    if rest.Some? {
      assert done + [b] + rest.value == done + ([b] + rest.value);
    }
  }

  method AnyOther(buf: array<char>, from: nat) returns (bad: bool)
    requires from <= buf.Length
    ensures bad <==> !AllPad(buf[from..])
  {
    var i := from;
    while i < buf.Length
      invariant from <= i <= buf.Length && forall k :: from <= k < i ==> buf[k] == PAD
    {
      if buf[i] != PAD {
        assert buf[from..][i - from] == buf[i];
        return true;
      }
      i := i + 1;
    }
    return false;
  }
}

/** string_process_escapes of common.cpp, which rewrites its argument in place. */
module Escapes {
  import opened Text

  /** strtol on two characters, if it consumes both: two digits, or a space or a sign and one digit. The value is then
      cast to a byte. */
  function HexByte(a: char, b: char): (r: Option<char>)
    ensures r.Some? ==> r.value as int < 256
  {
    if !IsHex(b) then None
    else if IsHex(a) then Some((16 * HexValue(a) + HexValue(b)) as char)
    else if IsSpace(a) || a == '+' then Some(HexValue(b) as char)
    else if a == '-' then Some(((256 - HexValue(b)) % 256) as char)
    else None
  }

  /** The character that a one-letter escape stands for. */
  function Letter(c: char): Option<char> {
    if c == 'n' then Some('\n')
    else if c == 'r' then Some('\r')
    else if c == 't' then Some('\t')
    else if c == '\'' || c == '"' || c == '\\' then Some(c)
    else None
  }

  /** The decoder, from left to right. */
  function Unescape(s: string): string {
    if s == [] then []
    else if s[0] != '\\' || |s| == 1 then [s[0]] + Unescape(s[1..])
    else if Letter(s[1]).Some? then [Letter(s[1]).value] + Unescape(s[2..])
    else if s[1] == 'x' && |s| > 3 && HexByte(s[2], s[3]).Some? then [HexByte(s[2], s[3]).value] + Unescape(s[4..])
    else ['\\', s[1]] + Unescape(s[2..])
  }

  lemma Grow(done: string, x: string, rest: string)
    ensures done + x + rest == done + (x + rest)
  {
  }

  /** One turn of the loop: what is read and what is written for it. */
  function Turn(s: string, i: nat): (r: (nat, string))
    requires i < |s|
    ensures i < r.0 <= |s| && 1 <= |r.1| <= r.0 - i
  {
    if s[i] == '\\' && i + 1 < |s| then
      if Letter(s[i + 1]).Some? then (i + 2, [Letter(s[i + 1]).value])
      else if s[i + 1] == 'x' && i + 3 < |s| && HexByte(s[i + 2], s[i + 3]).Some? then (i + 4, [HexByte(s[i + 2], s[i + 3]).value])
      else (i + 2, ['\\', s[i + 1]])
    else (i + 1, [s[i]])
  }

  lemma TurnIs(s: string, i: nat)
    requires i < |s|
    ensures Unescape(s[i..]) == Turn(s, i).1 + Unescape(s[Turn(s, i).0..])
  {
    hide Letter, HexByte;
    var u := s[i..];
    assert forall k :: 0 <= k < |u| ==> u[k] == s[i + k];
    assert u[1..] == s[i + 1..];
    if i + 2 <= |s| {
      assert u[2..] == s[i + 2..];
    }
    if i + 4 <= |s| {
      assert u[4..] == s[i + 4..];
    }
  }

  /** string_process_escapes: the write index never passes the read index, so what is not yet read is untouched, and the
      result is the decoded text. */
  method ProcessEscapes(buf: array<char>) returns (n: nat)
    modifies buf
    ensures n <= buf.Length && buf[..n] == Unescape(old(buf[..]))
  {
    hide Letter, HexByte, Unescape;
    ghost var s := buf[..];
    var i, o := 0, 0;
    assert s[0..] == s && buf[..0] == [];
    while i < buf.Length
      invariant 0 <= o <= i <= buf.Length == |s|
      invariant forall k :: i <= k < |s| ==> buf[k] == s[k]
      invariant buf[..o] + Unescape(s[i..]) == Unescape(s)
    {
      TurnIs(s, i);
      ghost var t, done, i0 := Turn(s, i), buf[..o], i;
      Grow(done, t.1, Unescape(s[t.0..]));
      if buf[i] == '\\' && i + 1 < buf.Length {
        i := i + 1;
        var c := buf[i];
        var letter := Letter(c);
        if letter.Some? {
          buf[o] := letter.value;
          o := o + 1;
        } else {
          var byte := if c == 'x' && i + 2 < buf.Length then HexByte(buf[i + 1], buf[i + 2]) else None;
          if byte.Some? {
            i := i + 2;
            buf[o] := byte.value;
            o := o + 1;
          } else {
            buf[o] := '\\';
            o := o + 1;
            buf[o] := buf[i];
            o := o + 1;
          }
        }
      } else {
        buf[o] := buf[i];
        o := o + 1;
      }
      i := i + 1;
      assert i == t.0 && o == |done| + |t.1|;
      assert buf[..o] == done + t.1;
    }
    NothingLeft(s);
    assert buf[..o] + [] == buf[..o];
    return o;
  }

  lemma NothingLeft(s: string)
    ensures Unescape(s[|s|..]) == []
  {
  }

  // ----- Escapes as they are written

  const NAMES := "nrt'\"\\"
  const NAMED := "\n\r\t'\"\\"

  /** A character, one of the named escapes, a byte given by two characters, or a backslash that escapes nothing. */
  datatype Piece = Plain(c: char) | Named(i: nat) | Byte(a: char, b: char, v: nat) | Kept(c: char) {
    function Written(): string {
      match this
      case Plain(c) => [c]
      case Named(i) => if i < 6 then ['\\', NAMES[i]] else []
      case Byte(a, b, _) => ['\\', 'x', a, b]
      case Kept(c) => ['\\', c]
    }

    function Value(): string {
      match this
      case Plain(c) => [c]
      case Named(i) => if i < 6 then [NAMED[i]] else []
      case Byte(_, _, v) => if v < 256 then [v as char] else []
      case Kept(c) => ['\\', c]
    }
  }

  predicate IsDigitOf(c: char, v: nat) {
    v < 16 && (c == "0123456789abcdef"[v] || c == "0123456789ABCDEF"[v])
  }

  /** What two characters after \x say: two digits, or one behind a space or a sign. */
  ghost predicate Means(a: char, b: char, v: nat) {
    || (exists p: nat, q: nat :: IsDigitOf(a, p) && IsDigitOf(b, q) && v == 16 * p + q)
    || ((IsSpace(a) || a == '+') && IsDigitOf(b, v))
    || (a == '-' && v < 256 && exists q: nat :: IsDigitOf(b, q) && (v + q == 256 || v == q == 0))
  }

  lemma DigitIs(c: char, v: nat)
    ensures IsDigitOf(c, v) <==> IsHex(c) && HexValue(c) == v
  {
    if '0' <= c <= '9' && v < 16 {
      assert "0123456789"[c as int - 48] == c;
    } else if 'a' <= c <= 'f' && v < 16 {
      assert "abcdef"[c as int - 97] == c;
    } else if 'A' <= c <= 'F' && v < 16 {
      assert "ABCDEF"[c as int - 65] == c;
    }
  }

  lemma HexByteIs(a: char, b: char)
    ensures HexByte(a, b).None? ==> forall v: nat :: !Means(a, b, v)
    ensures HexByte(a, b).Some? ==> forall v: nat :: Means(a, b, v) <==> v == HexByte(a, b).value as int
  {
    hide IsDigitOf, IsHex, HexValue;
    DigitsAre(a);
    DigitsAre(b);
    SignsAreNoDigits();
    if HexByte(a, b).Some? {
      assert IsDigitOf(b, HexValue(b) as nat);
      assert IsHex(a) ==> IsDigitOf(a, HexValue(a) as nat);
      assert Means(a, b, HexByte(a, b).value as int);
    }
  }

  lemma DigitsAre(c: char)
    ensures forall v: nat :: IsDigitOf(c, v) <==> IsHex(c) && HexValue(c) == v
  {
    forall v: nat
      ensures IsDigitOf(c, v) <==> IsHex(c) && HexValue(c) == v
    {
      DigitIs(c, v);
    }
  }

  lemma SignsAreNoDigits()
    ensures !IsHex('+') && !IsHex('-') && forall c :: IsSpace(c) ==> !IsHex(c)
  {
  }

  lemma LetterIs(c: char)
    ensures Letter(c).Some? <==> exists i: nat :: i < 6 && NAMES[i] == c
    ensures forall i: nat :: i < 6 && NAMES[i] == c ==> Letter(c) == Some(NAMED[i])
  {
    assert NAMES[0] == 'n' && NAMES[1] == 'r' && NAMES[2] == 't' && NAMES[3] == '\'' && NAMES[4] == '"' && NAMES[5] == '\\';
    assert NAMED[0] == '\n' && NAMED[1] == '\r' && NAMED[2] == '\t' && NAMED[3] == '\'' && NAMED[4] == '"' && NAMED[5] == '\\';
  }

  function Written(ps: seq<Piece>): string {
    if ps == [] then [] else ps[0].Written() + Written(ps[1..])
  }

  function Value(ps: seq<Piece>): string {
    if ps == [] then [] else ps[0].Value() + Value(ps[1..])
  }

  /** In front of `rest`: only the last character can be a bare backslash, and a kept backslash begins no other piece. */
  ghost predicate Stands(p: Piece, rest: string) {
    match p
    case Plain(c) => c == '\\' ==> rest == []
    case Named(i) => i < 6
    case Byte(a, b, v) => Means(a, b, v) && v < 256
    case Kept(c) =>
      && (forall i: nat :: i < 6 ==> NAMES[i] != c)
      && (c == 'x' && |rest| >= 2 ==> forall v: nat :: !Means(rest[0], rest[1], v))
  }

  ghost predicate AllStand(ps: seq<Piece>) {
    ps != [] ==> Stands(ps[0], Written(ps[1..])) && AllStand(ps[1..])
  }

  // ----- Reading them

  lemma PieceRead(p: Piece, rest: string)
    requires Stands(p, rest)
    ensures Unescape(p.Written() + rest) == p.Value() + Unescape(rest)
  {
    hide Letter, HexByte, Means;
    var s := p.Written() + rest;
    match p {
      case Plain(c) => assert s[1..] == rest;
      case Named(i) =>
        LetterIs(NAMES[i]);
        assert s[2..] == rest;
      case Byte(a, b, v) =>
        LetterIs('x');
        NoNameIsX();
        HexByteIs(a, b);
        assert s[2] == a && s[3] == b && s[4..] == rest;
      case Kept(c) =>
        LetterIs(c);
        assert s[2..] == rest && s[0] == '\\' && s[1] == c;
        if |rest| >= 2 {
          HexByteIs(rest[0], rest[1]);
          assert s[2] == rest[0] && s[3] == rest[1];
          assert c == 'x' ==> HexByte(rest[0], rest[1]).None? by { NotAByte(rest[0], rest[1], c); }
        }
    }
  }

  lemma NotAByte(a: char, b: char, c: char)
    requires c == 'x' ==> forall v: nat :: !Means(a, b, v)
    ensures c == 'x' ==> HexByte(a, b).None?
  {
    hide Means;
    HexByteIs(a, b);
    if HexByte(a, b).Some? {
      assert Means(a, b, HexByte(a, b).value as int);
    }
  }

  lemma NoNameIsX()
    ensures forall i: nat :: i < 6 ==> NAMES[i] != 'x'
  {
  }

  /** Main result: whatever the pieces, what is read is what they stand for. */
  lemma {:induction false} UnescapeWritten(ps: seq<Piece>)
    requires AllStand(ps)
    ensures Unescape(Written(ps)) == Value(ps)
    decreases |ps|
  {
    hide Stands, Unescape;
    if ps == [] {
      NothingLeft([]);
    } else {
      PieceRead(ps[0], Written(ps[1..]));
      UnescapeWritten(ps[1..]);
    }
  }

  /** The first piece of a text. */
  lemma FirstPiece(s: string) returns (p: Piece, rest: string)
    requires s != []
    ensures s == p.Written() + rest && Stands(p, rest) && |rest| < |s|
  {
    hide Means, Letter, HexByte;
    if s[0] != '\\' || |s| == 1 {
      p, rest := Plain(s[0]), s[1..];
    } else {
      LetterIs(s[1]);
      if |s| > 3 {
        HexByteIs(s[2], s[3]);
      }
      if Letter(s[1]).Some? {
        var i: nat :| i < 6 && NAMES[i] == s[1];
        p, rest := Named(i), s[2..];
      } else if s[1] == 'x' && |s| > 3 && HexByte(s[2], s[3]).Some? {
        p, rest := Byte(s[2], s[3], HexByte(s[2], s[3]).value as int), s[4..];
      } else {
        p, rest := Kept(s[1]), s[2..];
        assert |rest| >= 2 ==> rest[0] == s[2] && rest[1] == s[3];
      }
    }
  }

  /** Every text is made of such pieces, so that the law says what any text is read as. */
  lemma {:induction false} EveryTextIsWritten(s: string) returns (ps: seq<Piece>)
    ensures AllStand(ps) && Written(ps) == s
    decreases |s|
  {
    hide Stands;
    if s == [] {
      ps := [];
    } else {
      var p, rest := FirstPiece(s);
      var more := EveryTextIsWritten(rest);
      ps := [p] + more;
      assert ps[1..] == more;
    }
  }

  // ----- Escaping

  /** Every backslash doubled. */
  function Doubled(s: string): string {
    if s == [] then [] else (if s[0] == '\\' then "\\\\" else [s[0]]) + Doubled(s[1..])
  }

  /** Doubling the backslashes protects any text. */
  lemma {:induction false} UnescapeDoubled(s: string)
    ensures Unescape(Doubled(s)) == s
  {
    if s != [] {
      UnescapeDoubled(s[1..]);
      var d := Doubled(s);
      if s[0] == '\\' {
        assert d[0] == '\\' && d[1] == '\\' && d[2..] == Doubled(s[1..]);
        assert [s[0]] + s[1..] == s;
      } else {
        assert d[0] == s[0] && d[1..] == Doubled(s[1..]);
      }
    }
  }
}

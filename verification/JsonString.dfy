/** Strings as the JSON library writes and reads them (section 7 of RFC 8259). */
module JsonString {
  import opened Text
  import opened Utf8

  // ----- Writing

  const HEX := "0123456789abcdef"

  /** How dump() writes one byte of a string. */
  function EscapeChar(c: char): (e: string)
    ensures e != []
  {
    if c == '"' then "\\\""
    else if c == '\\' then "\\\\"
    else if c as int == 8 then "\\b"
    else if c as int == 9 then "\\t"
    else if c as int == 10 then "\\n"
    else if c as int == 12 then "\\f"
    else if c as int == 13 then "\\r"
    else if c as int < 0x20 then "\\u00" + [HEX[c as int / 16], HEX[c as int % 16]]
    else [c]
  }

  function Escape(s: string): string {
    if s == [] then [] else EscapeChar(s[0]) + Escape(s[1..])
  }

  lemma EscapeConcat(a: string, b: string)
    ensures Escape(a + b) == Escape(a) + Escape(b)
  {
    if a == [] {
      assert a + b == b;
    } else {
      assert (a + b)[1..] == a[1..] + b;
      EscapeConcat(a[1..], b);
    }
  }

  predicate NoEscapes(s: string) {
    forall i :: 0 <= i < |s| ==> s[i] as int >= 0x20 && s[i] != '"' && s[i] != '\\'
  }

  lemma EscapePlain(s: string)
    requires NoEscapes(s)
    ensures Escape(s) == s
  {
    if s != [] {
      EscapePlain(s[1..]);
    }
  }

  lemma EscapeMonotone(a: string, b: string)
    requires a <= b
    ensures Escape(a) <= Escape(b)
  {
    assert b == a + b[|a|..];
    EscapeConcat(a, b[|a|..]);
  }

  lemma EscapeNothing()
    ensures Escape([]) == []
  {
  }

  // ----- Reading

  /** The four hex digits at `i`. */
  function UnitAt(s: string, i: nat): (u: int)
    requires i + 4 <= |s|
    ensures 0 <= u < 0x10000
  {
    ((HexValue(s[i]) * 16 + HexValue(s[i + 1])) * 16 + HexValue(s[i + 2])) * 16 + HexValue(s[i + 3])
  }

  /** What a one-letter escape stands for. */
  function Short(c: char): Option<char> {
    if c == '"' || c == '\\' || c == '/' then Some(c)
    else if c == 'b' then Some(8 as char)
    else if c == 't' then Some(9 as char)
    else if c == 'n' then Some(10 as char)
    else if c == 'f' then Some(12 as char)
    else if c == 'r' then Some(13 as char)
    else None
  }

  predicate IsPair(s: string) {
    |s| >= 12 && 0xD800 <= UnitAt(s, 2) < 0xDC00 && s[6] == '\\' && s[7] == 'u' && 0xDC00 <= UnitAt(s, 8) < 0xE000
  }

  /** The content of the text between the quotes; a surrogate pair is one character. */
  function Unescape(s: string): string {
    if s == [] then []
    else if s[0] != '\\' then [s[0]] + Unescape(s[1..])
    else if |s| >= 2 && Short(s[1]).Some? then [Short(s[1]).value] + Unescape(s[2..])
    else if IsPair(s) then
      Encode(0x10000 + (UnitAt(s, 2) - 0xD800) * 0x400 + (UnitAt(s, 8) - 0xDC00)) + Unescape(s[12..])
    else if |s| >= 6 then Encode(UnitAt(s, 2)) + Unescape(s[6..])
    else []
  }

  lemma HexDigits(v: int)
    requires 0 <= v < 16
    ensures HexValue(HEX[v]) == v
  {
    assert HEX[v] == if v < 10 then (48 + v) as char else (87 + v) as char;
  }

  /** A character that is written with an escape is read back. */
  lemma UnescapeChar(c: char, rest: string)
    ensures Unescape(EscapeChar(c) + rest) == [c] + Unescape(rest)
  {
    var e := EscapeChar(c);
    var s := e + rest;
    if |e| == 1 {
      assert s[1..] == rest;
    } else if |e| == 2 {
      assert s[2..] == rest && s[1] == e[1];
    } else {
      var v := c as int;
      assert e == "\\u00" + [HEX[v / 16], HEX[v % 16]];
      assert s[6..] == rest && s[0] == '\\' && s[1] == 'u' && s[2] == '0' && s[3] == '0' && s[4] == HEX[v / 16] && s[5] == HEX[v % 16];
      HexDigits(v / 16);
      HexDigits(v % 16);
      assert UnitAt(s, 2) == v;
      assert Encode(v) == [c];
    }
  }

  /** Reading undoes writing. */
  lemma {:induction false} UnescapeEscape(x: string, rest: string)
    ensures Unescape(Escape(x) + rest) == x + Unescape(rest)
  {
    hide EscapeChar, Unescape;
    if x == [] {
      assert [] + rest == rest && [] + Unescape(rest) == Unescape(rest);
    } else {
      UnescapeEscape(x[1..], rest);
      assert Escape(x) + rest == EscapeChar(x[0]) + (Escape(x[1..]) + rest);
      UnescapeChar(x[0], Escape(x[1..]) + rest);
      assert [x[0]] + (x[1..] + Unescape(rest)) == x + Unescape(rest);
    }
  }

  /** The text between the quotes is as the library writes it. */
  predicate AsWritten(s: string) {
    Escape(Unescape(s)) == s
  }

  lemma UnescapePlain(m: string)
    requires NoEscapes(m)
    ensures Unescape(m) == m
  {
    UnescapeEscape(m, []);
    EscapePlain(m);
    assert m + [] == m;
  }

  /** Plain text may be added. */
  lemma WrittenMore(s: string, m: string)
    requires AsWritten(s) && NoEscapes(m)
    ensures AsWritten(s + m) && Unescape(s + m) == Unescape(s) + m
  {
    hide Escape, Unescape, NoEscapes;
    UnescapeEscape(Unescape(s), m);
    UnescapePlain(m);
    EscapeConcat(Unescape(s), m);
    EscapePlain(m);
  }

  /** So may an escaped backslash. */
  lemma WrittenBackslash(s: string)
    requires AsWritten(s)
    ensures AsWritten(s + "\\\\") && Unescape(s + "\\\\") == Unescape(s) + "\\"
  {
    hide Unescape;
    var b := "\\";
    assert Escape(b) == EscapeChar('\\') + Escape([]) == "\\\\";
    UnescapeEscape(Unescape(s), "\\\\");
    UnescapeEscape(b, []);
    assert "\\\\" + [] == "\\\\" && b + [] == b;
    NothingRead();
    EscapeConcat(Unescape(s), b);
  }

  lemma NothingRead()
    ensures Unescape([]) == [] && AsWritten([])
  {
  }
}

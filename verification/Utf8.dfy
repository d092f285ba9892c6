/** UTF-8 as console.cpp and chat-parser-xml-toolcall.cpp read and write it (section 3 of RFC 3629). */
module Utf8 {

  type CodePoint = c: int | 0 <= c <= 0x10FFFF

  function Byte(b: int): char
    requires 0 <= b < 256
  {
    b as char
  }

  /** append_utf8 for a code point; the source's masks and shifts written as division and remainder. */
  function Encode(c: CodePoint): (s: string)
    ensures 1 <= |s| <= 4
  {
    if c <= 0x7F then [Byte(c)]
    else if c <= 0x7FF then [Byte(0xC0 + c / 0x40), Byte(0x80 + c % 0x40)]
    else if c <= 0xFFFF then [Byte(0xE0 + c / 0x1000), Byte(0x80 + c / 0x40 % 0x40), Byte(0x80 + c % 0x40)]
    else [Byte(0xF0 + c / 0x40000), Byte(0x80 + c / 0x1000 % 0x40), Byte(0x80 + c / 0x40 % 0x40), Byte(0x80 + c % 0x40)]
  }

  function EncodeAll(cs: seq<CodePoint>): string {
    if cs == [] then [] else Encode(cs[0]) + EncodeAll(cs[1..])
  }

  /** No surrogate, which UTF-8 does not encode. */
  predicate Scalars(cs: seq<CodePoint>) {
    forall i :: 0 <= i < |cs| ==> !(0xD800 <= cs[i] < 0xE000)
  }

  /** UTF-8, as the JSON library accepts it. */
  ghost predicate WellFormed(s: string) {
    exists cs: seq<CodePoint> :: EncodeAll(cs) == s && Scalars(cs)
  }

  predicate IsAscii(b: char) { b as int < 0x80 }
  predicate IsCont(b: char) { 0x80 <= b as int < 0xC0 }
  predicate IsLead2(b: char) { 0xC0 <= b as int < 0xE0 }
  predicate IsLead3(b: char) { 0xE0 <= b as int < 0xF0 }
  predicate IsLead4(b: char) { 0xF0 <= b as int < 0xF8 }

  /** The length that the first byte of a character announces. */
  function Announced(b: char): nat {
    if IsAscii(b) then 1 else if IsLead2(b) then 2 else if IsLead3(b) then 3 else if IsLead4(b) then 4 else 0
  }

  lemma EncodeShape(c: CodePoint)
    ensures var e := Encode(c);
            Announced(e[0]) == |e| && forall i :: 1 <= i < |e| ==> IsCont(e[i])
  {
  }

  /** The six low bits. */
  function Six(b: char): int { b as int % 0x40 }

  /** decode_utf8: the code point at `pos` and how far to advance. */
  function Decode(input: string, pos: nat): (int, nat)
    requires pos < |input|
  {
    var c := input[pos];
    if IsAscii(c) then (c as int, 1)
    else if IsLead2(c) && pos + 1 < |input| then
      if !IsCont(input[pos + 1]) then (0xFFFD, 1) else (c as int % 0x20 * 0x40 + Six(input[pos + 1]), 2)
    else if IsLead3(c) && pos + 2 < |input| then
      if !IsCont(input[pos + 1]) || !IsCont(input[pos + 2]) then (0xFFFD, 1)
      else (c as int % 0x10 * 0x1000 + Six(input[pos + 1]) * 0x40 + Six(input[pos + 2]), 3)
    else if IsLead4(c) && pos + 3 < |input| then
      if !IsCont(input[pos + 1]) || !IsCont(input[pos + 2]) || !IsCont(input[pos + 3]) then (0xFFFD, 1)
      else (c as int % 8 * 0x40000 + Six(input[pos + 1]) * 0x1000 + Six(input[pos + 2]) * 0x40 + Six(input[pos + 3]), 4)
    else (0xFFFD, 1)
  }

  lemma Digits(c: int)
    requires 0 <= c <= 0x10FFFF
    ensures c == c / 0x40 * 0x40 + c % 0x40
    ensures c / 0x40 == c / 0x1000 * 0x40 + c / 0x40 % 0x40
    ensures c / 0x1000 == c / 0x40000 * 0x40 + c / 0x1000 % 0x40
  {
  }

  lemma SixOf(q: int)
    requires 0 <= q < 0x40
    ensures Six(Byte(0x80 + q)) == q && IsCont(Byte(0x80 + q))
  {
  }

  lemma DecodeShort(t: string, p: nat, c: CodePoint)
    requires c <= 0x7FF && p + |Encode(c)| <= |t| && t[p..p + |Encode(c)|] == Encode(c)
    ensures Decode(t, p) == (c, |Encode(c)|)
  {
    var e := Encode(c);
    var u := t[p..p + |e|];
    assert u[0] == t[p] && (|e| == 2 ==> u[1] == t[p + 1]);
    Digits(c);
    SixOf(c % 0x40);
  }

  lemma DecodeTriple(t: string, p: nat, c: CodePoint)
    requires 0x800 <= c <= 0xFFFF && p + 3 <= |t| && t[p..p + 3] == Encode(c)
    ensures Decode(t, p) == (c, 3)
  {
    var e := Encode(c);
    var u := t[p..p + 3];
    assert u[0] == t[p] && u[1] == t[p + 1] && u[2] == t[p + 2];
    Digits(c);
    SixOf(c % 0x40);
    SixOf(c / 0x40 % 0x40);
    assert IsLead3(e[0]) && e[0] as int % 0x10 == c / 0x1000;
  }

  lemma DecodeQuad(t: string, p: nat, c: CodePoint)
    requires c > 0xFFFF && p + 4 <= |t| && t[p..p + 4] == Encode(c)
    ensures Decode(t, p) == (c, 4)
  {
    var e := Encode(c);
    var u := t[p..p + 4];
    assert u[0] == t[p] && u[1] == t[p + 1] && u[2] == t[p + 2] && u[3] == t[p + 3];
    Digits(c);
    SixOf(c % 0x40);
    SixOf(c / 0x40 % 0x40);
    SixOf(c / 0x1000 % 0x40);
    assert IsLead4(e[0]) && e[0] as int % 8 == c / 0x40000;
  }

  /** Decoding undoes encoding, wherever the character stands. */
  lemma DecodeEncode(pre: string, c: CodePoint, post: string)
    ensures Decode(pre + Encode(c) + post, |pre|) == (c, |Encode(c)|)
  {
    hide Decode;
    var e := Encode(c);
    var t := pre + e + post;
    assert t[|pre|..|pre| + |e|] == e;
    if c <= 0x7FF { DecodeShort(t, |pre|, c); }
    else if c <= 0xFFFF { DecodeTriple(t, |pre|, c); }
    else { DecodeQuad(t, |pre|, c); }
  }

  // ----- Character boundaries

  /** The byte offset of character `k`. */
  function Offset(cs: seq<CodePoint>, k: nat): nat
    requires k <= |cs|
  {
    |EncodeAll(cs[..k])|
  }

  lemma EncodeAllConcat(cs: seq<CodePoint>, ds: seq<CodePoint>)
    ensures EncodeAll(cs + ds) == EncodeAll(cs) + EncodeAll(ds)
  {
    if cs == [] {
      assert cs + ds == ds;
    } else {
      assert (cs + ds)[1..] == cs[1..] + ds;
      EncodeAllConcat(cs[1..], ds);
    }
  }

  lemma EncodeOne(c: CodePoint)
    ensures EncodeAll([c]) == Encode(c)
  {
    assert Encode(c) + EncodeAll([]) == Encode(c);
  }

  lemma OffsetStep(cs: seq<CodePoint>, k: nat)
    requires k < |cs|
    ensures Offset(cs, k + 1) == Offset(cs, k) + |Encode(cs[k])|
  {
    hide Encode, EncodeAll;
    assert cs[..k + 1] == cs[..k] + [cs[k]];
    EncodeAllConcat(cs[..k], [cs[k]]);
    EncodeOne(cs[k]);
  }

  /** Text around character `k`. */
  lemma SplitAt(cs: seq<CodePoint>, k: nat)
    requires k < |cs|
    ensures EncodeAll(cs) == EncodeAll(cs[..k]) + Encode(cs[k]) + EncodeAll(cs[k + 1..])
    ensures Offset(cs, k + 1) == Offset(cs, k) + |Encode(cs[k])| <= |EncodeAll(cs)|
  {
    hide Encode, EncodeAll;
    OffsetStep(cs, k);
    SeqSplit(cs, k);
    var a, b, post := cs[..k], [cs[k]], cs[k + 1..];
    EncodeAllConcat(a + b, post);
    EncodeAllConcat(a, b);
    EncodeOne(cs[k]);
  }

  lemma SeqSplit<T>(s: seq<T>, k: nat)
    requires k < |s|
    ensures s == s[..k] + [s[k]] + s[k + 1..]
  {
  }

  /** Every byte of encoded text is a continuation byte exactly if no character begins there. */
  lemma BytesOf(cs: seq<CodePoint>, k: nat, i: nat)
    requires k < |cs| && i < |Encode(cs[k])|
    ensures Offset(cs, k) + i < |EncodeAll(cs)|
    ensures EncodeAll(cs)[Offset(cs, k) + i] == Encode(cs[k])[i]
    ensures i == 0 ==> Announced(EncodeAll(cs)[Offset(cs, k)]) == |Encode(cs[k])| && !IsCont(EncodeAll(cs)[Offset(cs, k)])
    ensures i > 0 ==> IsCont(EncodeAll(cs)[Offset(cs, k) + i])
  {
    hide Encode, EncodeAll;
    SplitAt(cs, k);
    EncodeShape(cs[k]);
    var a, e := EncodeAll(cs[..k]), Encode(cs[k]);
    assert (a + e + EncodeAll(cs[k + 1..]))[|a| + i] == e[i];
  }

  lemma DecodeAt(cs: seq<CodePoint>, k: nat)
    requires k < |cs|
    ensures Offset(cs, k) < |EncodeAll(cs)| && Decode(EncodeAll(cs), Offset(cs, k)) == (cs[k], |Encode(cs[k])|)
  {
    SplitAt(cs, k);
    DecodeEncode(EncodeAll(cs[..k]), cs[k], EncodeAll(cs[k + 1..]));
  }

  /** prev_utf8_char_pos. */
  function Prev(line: string, pos: nat): (r: nat)
    requires pos <= |line|
    ensures r <= pos
  {
    if pos == 0 then 0 else BackOver(line, pos - 1)
  }

  function BackOver(line: string, pos: nat): (r: nat)
    requires pos < |line|
    ensures r <= pos
  {
    if pos > 0 && IsCont(line[pos]) then BackOver(line, pos - 1) else pos
  }

  /** next_utf8_char_pos. */
  function Next(line: string, pos: nat): (r: nat)
    ensures r <= |line| && (pos < |line| ==> pos < r)
  {
    if pos >= |line| then |line| else ForwardOver(line, pos + 1)
  }

  function ForwardOver(line: string, pos: nat): (r: nat)
    requires pos <= |line|
    ensures pos <= r <= |line|
    decreases |line| - pos
  {
    if pos < |line| && IsCont(line[pos]) then ForwardOver(line, pos + 1) else pos
  }

  method PrevCharPos(line: string, pos: nat) returns (r: nat)
    requires pos <= |line|
    ensures r == Prev(line, pos)
  {
    if pos == 0 { return 0; }
    r := pos - 1;
    while r > 0 && IsCont(line[r])
      invariant r < |line| && BackOver(line, r) == BackOver(line, pos - 1)
    {
      r := r - 1;
    }
  }

  method NextCharPos(line: string, pos: nat) returns (r: nat)
    ensures r == Next(line, pos)
  {
    if pos >= |line| { return |line|; }
    r := pos + 1;
    while r < |line| && IsCont(line[r])
      invariant r <= |line| && ForwardOver(line, r) == ForwardOver(line, pos + 1)
    {
      r := r + 1;
    }
  }

  lemma BackOverTo(line: string, lead: nat, pos: nat)
    requires lead <= pos < |line| && (lead == 0 || !IsCont(line[lead]))
    requires forall i :: lead < i <= pos ==> IsCont(line[i])
    ensures BackOver(line, pos) == lead
  {
    if lead < pos {
      BackOverTo(line, lead, pos - 1);
    }
  }

  lemma ForwardOverTo(line: string, pos: nat, end: nat)
    requires pos <= end <= |line| && (end < |line| ==> !IsCont(line[end]))
    requires forall i :: pos <= i < end ==> IsCont(line[i])
    ensures ForwardOver(line, pos) == end
    decreases end - pos
  {
    if pos < end {
      ForwardOverTo(line, pos + 1, end);
    }
  }

  /** On encoded text the two functions step between neighbouring characters, and so undo each other. */
  lemma PrevNextInverse(cs: seq<CodePoint>, k: nat)
    requires k < |cs|
    ensures Offset(cs, k) < Offset(cs, k + 1) <= |EncodeAll(cs)|
    ensures Next(EncodeAll(cs), Offset(cs, k)) == Offset(cs, k + 1)
    ensures Prev(EncodeAll(cs), Offset(cs, k + 1)) == Offset(cs, k)
  {
    hide Encode, EncodeAll;
    var t, a, b := EncodeAll(cs), Offset(cs, k), Offset(cs, k + 1);
    SplitAt(cs, k);
    BytesOf(cs, k, 0);
    forall i | a < i < b
      ensures IsCont(t[i])
    {
      BytesOf(cs, k, i - a);
    }
    if k + 1 < |cs| {
      BytesOf(cs, k + 1, 0);
    } else {
      assert cs[..k + 1] == cs;
    }
    ForwardOverTo(t, a + 1, b);
    BackOverTo(t, a, b - 1);
  }

  // ----- utf8_truncate_safe

  /** The scan from the end: `back` bytes looked at, the next one is at `i - 1`. */
  function TruncateFrom(s: string, i: nat, back: nat): (r: nat)
    requires i <= |s| && back <= 4
    ensures r <= |s|
    decreases 4 - back
  {
    if back == 4 || i == 0 then |s| - (if |s| < 3 then |s| else 3)
    else
      var c := s[i - 1];
      if IsAscii(c) then |s|
      else if 0xC0 <= c as int < 0x100 then
        if Announced(c) == 0 then i - 1
        else if |s| - (i - 1) >= Announced(c) then |s| else i - 1
      else TruncateFrom(s, i - 1, back + 1)
  }

  function TruncateSafe(s: string): (r: nat)
    ensures r <= |s|
  {
    if s == [] then 0 else TruncateFrom(s, |s|, 0)
  }

  method Utf8TruncateSafe(s: string) returns (r: nat)
    ensures r == TruncateSafe(s)
  {
    var len := |s|;
    if len == 0 { return 0; }
    var i, back := len, 0;
    while back < 4 && i > 0
      invariant 0 <= i <= len && 0 <= back <= 4
      invariant TruncateFrom(s, i, back) == TruncateFrom(s, len, 0)
    {
      i := i - 1;
      var c := s[i];
      if IsAscii(c) {
        return len;
      } else if 0xC0 <= c as int < 0x100 {
        var expected := Announced(c);
        if expected == 0 { return i; }
        if len - i >= expected { return len; } else { return i; }
      }
      back := back + 1;
    }
    return len - (if len < 3 then len else 3);
  }

  /** A lead byte within reach of the end, followed by continuation bytes only, decides. */
  lemma TruncateAtLead(s: string, lead: nat, i: nat, back: nat)
    requires lead < i <= |s| && |s| - i == back && |s| - lead <= 4
    requires 1 <= Announced(s[lead]) <= 4
    requires forall j :: lead < j < |s| ==> IsCont(s[j])
    requires Announced(s[lead]) == 1 ==> lead == |s| - 1
    ensures TruncateFrom(s, i, back) == if |s| - lead >= Announced(s[lead]) then |s| else lead
    decreases i
  {
    if i - 1 > lead {
      TruncateAtLead(s, lead, i - 1, back + 1);
    }
  }

  /** Main result on truncation: on any byte prefix of encoded text it gives the greatest character boundary. */
  lemma TruncateIsGreatestBoundary(cs: seq<CodePoint>, n: nat) returns (k: nat)
    requires n <= |EncodeAll(cs)|
    ensures k <= |cs| && TruncateSafe(EncodeAll(cs)[..n]) == Offset(cs, k) <= n
    ensures k < |cs| ==> n < Offset(cs, k + 1)
  {
    hide Encode, EncodeAll, TruncateFrom;
    k := BoundaryBelow(cs, n);
    var t, s := EncodeAll(cs), EncodeAll(cs)[..n];
    var a := Offset(cs, k);
    assert k == |cs| ==> cs[..k] == cs;
    if n == a {
      if k == 0 {
        NothingEncoded(cs);
      } else {
        var lead := Offset(cs, k - 1);
        SplitAt(cs, k - 1);
        LeadBytes(cs, k - 1, n);
        TruncateAtLead(s, lead, n, 0);
      }
    } else {
      SplitAt(cs, k);
      LeadBytes(cs, k, n);
      TruncateAtLead(s, a, n, 0);
    }
  }

  lemma NothingEncoded(cs: seq<CodePoint>)
    ensures Offset(cs, 0) == 0
  {
  }

  lemma LeadBytes(cs: seq<CodePoint>, k: nat, n: nat)
    requires k < |cs| && Offset(cs, k) < n <= Offset(cs, k + 1) <= |EncodeAll(cs)|
    ensures var s, a := EncodeAll(cs)[..n], Offset(cs, k);
            && Announced(s[a]) == |Encode(cs[k])| == Offset(cs, k + 1) - a
            && forall j :: a < j < n ==> IsCont(s[j])
  {
    hide Encode, EncodeAll;
    SplitAt(cs, k);
    BytesOf(cs, k, 0);
    var a := Offset(cs, k);
    forall j | a < j < n
      ensures IsCont(EncodeAll(cs)[..n][j])
    {
      BytesOf(cs, k, j - a);
    }
  }

  lemma BoundaryBelow(cs: seq<CodePoint>, n: nat) returns (k: nat)
    requires n <= |EncodeAll(cs)|
    ensures k <= |cs| && Offset(cs, k) <= n
    ensures k < |cs| ==> n < Offset(cs, k + 1)
  {
    k := 0;
    while k < |cs| && Offset(cs, k + 1) <= n
      invariant k <= |cs| && Offset(cs, k) <= n
    {
      k := k + 1;
    }
  }

  lemma OffsetMonotone(cs: seq<CodePoint>, j: nat, k: nat)
    requires j <= k <= |cs|
    ensures Offset(cs, j) <= Offset(cs, k)
    decreases k
  {
    hide Offset, EncodeAll, Encode;
    if j < k {
      SplitAt(cs, k - 1);
      OffsetMonotone(cs, j, k - 1);
    }
  }

  /** Truncation never withdraws text as more bytes arrive. */
  lemma TruncateMonotone(cs: seq<CodePoint>, n: nat, m: nat)
    requires n <= m <= |EncodeAll(cs)|
    ensures TruncateSafe(EncodeAll(cs)[..n]) <= TruncateSafe(EncodeAll(cs)[..m])
  {
    var j := TruncateIsGreatestBoundary(cs, n);
    var k := TruncateIsGreatestBoundary(cs, m);
    if k < j {
      OffsetMonotone(cs, k + 1, j);
    } else {
      OffsetMonotone(cs, j, k);
    }
  }

  lemma FirstRead(c: CodePoint, rest: string)
    ensures var line := Encode(c) + rest;
            line != [] && Decode(line, 0) == (c, |Encode(c)|) && line[|Encode(c)|..] == rest
  {
    hide Decode, Encode;
    DecodeEncode([], c, rest);
    assert [] + Encode(c) + rest == Encode(c) + rest;
  }

  lemma FirstChar(cs: seq<CodePoint>)
    ensures cs == [] <==> EncodeAll(cs) == []
    ensures cs != [] ==>
              && EncodeAll(cs) != [] && Decode(EncodeAll(cs), 0) == (cs[0], |Encode(cs[0])|)
              && |Encode(cs[0])| <= |EncodeAll(cs)| && EncodeAll(cs)[|Encode(cs[0])|..] == EncodeAll(cs[1..])
  {
    hide Decode, Encode;
    if cs != [] {
      FirstRead(cs[0], EncodeAll(cs[1..]));
    }
  }

  /** A text has one reading only. */
  lemma {:induction false} EncodeInjective(a: seq<CodePoint>, b: seq<CodePoint>)
    requires EncodeAll(a) == EncodeAll(b)
    ensures a == b
    decreases |a|
  {
    hide Decode, Encode, EncodeAll;
    FirstChar(a);
    FirstChar(b);
    if a != [] {
      EncodeInjective(a[1..], b[1..]);
      assert a == [a[0]] + a[1..] && b == [b[0]] + b[1..];
    }
  }
}

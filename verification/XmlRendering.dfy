/** Rendered tool calls: how the literals of a form are found in them, and how cut-off arguments are dumped. */
module XmlRendering {
  import opened Text
  import opened ChatMessage
  import opened ChatParser
  import opened Utf8
  import opened JsonString
  import opened XmlToolCall

  /** A delimiter: it does not begin with a space, and its first character, an ASCII one, occurs in it only once. */
  predicate IsTag(lit: string) {
    lit != [] && !IsSpace(lit[0]) && IsAscii(lit[0]) && forall i :: 1 <= i < |lit| ==> lit[i] != lit[0]
  }

  // ----- Finding a delimiter

  lemma FirstOnly(lit: string, k: nat)
    requires IsTag(lit) && k < |lit| && lit[k] == lit[0]
    ensures k == 0
  {
  }

  /** In `x` + delimiter, the delimiter occurs at the end or inside `x`. */
  lemma OccursInTagged(x: string, lit: string, i: nat)
    requires IsTag(lit) && OccursAt(x + lit, lit, i)
    ensures i == |x| || OccursAt(x, lit, i)
  {
    var w := x + lit;
    if i + |lit| <= |x| {
      assert x[i..i + |lit|] == w[i..i + |lit|];
    } else {
      assert w[|x|] == lit[0];
      assert w[i..i + |lit|][|x| - i] == w[|x|];
      FirstOnly(lit, |x| - i);
    }
  }

  lemma NoneBefore(x: string, lit: string, i: nat)
    requires IsTag(lit) && !Contains(x, lit) && i < |x|
    ensures !OccursAt(x + lit, lit, i)
  {
    if OccursAt(x + lit, lit, i) {
      OccursInTagged(x, lit, i);
    }
  }

  lemma OccursInSuffix(input: string, pos: nat, lit: string, j: nat)
    requires pos <= j && pos <= |input|
    ensures OccursAt(input, lit, j) <==> OccursAt(input[pos..], lit, j - pos)
  {
    var r := input[pos..];
    if j + |lit| <= |input| {
      assert r[j - pos..j - pos + |lit|] == input[j..j + |lit|];
    }
  }

  /** No occurrence can begin in `x` and reach into the delimiter behind it. */
  lemma OccursBehind(x: string, lit: string)
    ensures OccursAt(x + lit, lit, |x|)
  {
    assert (x + lit)[|x|..|x| + |lit|] == lit;
  }

  lemma FindAhead(input: string, pos: nat, x: string, lit: string, y: string)
    requires IsTag(lit) && pos <= |input| && input[pos..] == x + lit + y && !Contains(x, lit)
    ensures Find(input, lit, pos) == Some(pos + |x|)
  {
    hide Find, OccursAt, Contains, IsTag;
    var w, r := x + lit, x + lit + y;
    forall j: nat | pos <= j < pos + |x|
      ensures !OccursAt(input, lit, j)
    {
      OccursInSuffix(input, pos, lit, j);
      OccursInPrefix(w, r, lit, j - pos);
      NoneBefore(x, lit, j - pos);
    }
    OccursBehind(x, lit);
    OccursInPrefix(w, r, lit, |x|);
    OccursInSuffix(input, pos, lit, pos + |x|);
    FindIs(input, lit, pos, pos + |x|);
  }

  lemma LiteralAhead(input: string, partial: bool, pos: nat, x: string, lit: string, y: string)
    requires IsTag(lit) && pos <= |input| && input[pos..] == x + lit + y && !Contains(x, lit)
    ensures pos + |x| + |lit| <= |input|
    ensures FindLiteral(input, partial, pos, lit) == Some(Match(x, pos + |x|, pos + |x| + |lit|))
    ensures input[pos + |x| + |lit|..] == y
  {
    hide Find;
    FindAhead(input, pos, x, lit, y);
    var r := x + lit + y;
    assert input[pos..pos + |x|] == r[..|x|] == x;
    assert input[pos + |x| + |lit|..] == r[|x| + |lit|..];
  }

  /** A cut-off delimiter can begin at one place only. */
  lemma HoldUnique(s: string, lit: string, i: nat, j: nat)
    requires IsTag(lit) && HoldsAt(s, lit, i) && HoldsAt(s, lit, j) && i <= j
    ensures i == j
  {
    assert s[i..][j - i] == s[j] == s[j..][0];
    FirstOnly(lit, j - i);
  }

  /** The held-back place behind a position is the only one there is. */
  lemma StopBehind(input: string, pos: nat, lit: string)
    requires IsTag(lit) && pos <= |input|
    ensures var h, p := HoldBack(input, lit, pos), PartialStop(input, lit);
            if h < |input| then p == Some(h) else p.None? || p.value < pos
  {
    hide IsTag, HoldsAt;
    PartialStopLeast(input, lit, pos);
    PartialStopLeast(input, lit, 0);
    var h := HoldBack(input, lit, pos);
    if h < |input| {
      HoldUnique(input, lit, PartialStop(input, lit).value, h);
    }
  }

  /** A delimiter that the text breaks off before or in. */
  lemma LiteralCut(input: string, pos: nat, lit: string)
    requires IsTag(lit) && pos <= |input| && Find(input, lit, pos).None?
    ensures var r := input[pos..];
            var h := HoldBack(r, lit, 0);
            FindLiteral(input, true, pos, lit) == if h < |r| then Some(Match(r[..h], pos + h, |input|)) else None
  {
    hide Find, HoldBack, PartialStop, IsTag;
    var r := input[pos..];
    var h := HoldBack(r, lit, 0);
    HoldBackSuffix(input, lit, pos);
    StopBehind(input, pos, lit);
    assert r[..h] == input[pos..pos + h];
  }

  /** A proper prefix of `x` + the delimiter does not contain it. */
  lemma NotYetThere(input: string, pos: nat, x: string, lit: string)
    requires IsTag(lit) && pos <= |input| && input[pos..] < x + lit && !Contains(x, lit)
    ensures Find(input, lit, pos).None?
  {
    hide Find;
    var r, w := input[pos..], x + lit;
    forall j: nat | pos <= j
      ensures !OccursAt(input, lit, j)
    {
      OccursInSuffix(input, pos, lit, j);
      OccursInPrefix(r, w, lit, j - pos);
      if j - pos < |x| {
        NoneBefore(x, lit, j - pos);
      }
    }
    FindFirst(input, lit, pos);
  }

  lemma OccursIsPrefix(input: string, lit: string, pos: nat)
    requires pos <= |input|
    ensures OccursAt(input, lit, pos) <==> lit <= input[pos..]
  {
    if pos + |lit| <= |input| {
      assert input[pos..][..|lit|] == input[pos..pos + |lit|];
    }
  }

  // ----- White space before a delimiter

  lemma OccursFirst(s: string, lit: string, i: nat)
    requires lit != [] && OccursAt(s, lit, i)
    ensures i < |s| && s[i] == lit[0]
  {
    assert s[i..i + |lit|][0] == s[i];
  }

  lemma HoldsFirst(s: string, lit: string, i: nat)
    requires HoldsAt(s, lit, i)
    ensures lit != [] && s[i] == lit[0]
  {
    assert s[i..][0] == s[i];
  }

  lemma HoldIn(r: string, lit: string)
    ensures var h := HoldBack(r, lit, 0); h < |r| ==> HoldsAt(r, lit, h) && lit != [] && r[h] == lit[0]
  {
    PartialStopLeast(r, lit, 0);
    var h := HoldBack(r, lit, 0);
    if h < |r| {
      HoldsFirst(r, lit, h);
    }
  }

  lemma NoFirstNoTag(s: string, lit: string)
    requires IsTag(lit) && forall i :: 0 <= i < |s| ==> s[i] != lit[0]
    ensures !Contains(s, lit)
  {
    forall i | 0 <= i <= |s|
      ensures !OccursAt(s, lit, i)
    {
      if OccursAt(s, lit, i) {
        OccursFirst(s, lit, i);
      }
    }
  }

  lemma TagIsNotSpace(lit: string)
    requires IsTag(lit)
    ensures !AllSpace(lit)
  {
    assert !IsSpace(lit[0]);
  }

  /** A delimiter behind white space is found there. */
  lemma LiteralBehind(input: string, partial: bool, pos: nat, gap: string, lit: string, y: string)
    requires IsTag(lit) && AllSpace(gap) && pos <= |input| && input[pos..] == gap + (lit + y)
    ensures pos + |gap| + |lit| <= |input|
    ensures FindLiteral(input, partial, pos, lit) == Some(Match(gap, pos + |gap|, pos + |gap| + |lit|))
    ensures input[pos + |gap| + |lit|..] == y
  {
    hide FindLiteral;
    assert gap + lit + y == gap + (lit + y);
    NoFirstNoTag(gap, lit);
    LiteralAhead(input, partial, pos, gap, lit, y);
  }

  /** In white space nothing is found. */
  lemma BlankFindsNothing(input: string, pos: nat, lit: string)
    requires IsTag(lit) && pos <= |input| && AllSpace(input[pos..])
    ensures FindLiteral(input, true, pos, lit) == None
  {
    hide Find, FindLiteral, Contains;
    var r := input[pos..];
    NoFirstNoTag(r, lit);
    assert r < r + lit;
    NotYetThere(input, pos, r, lit);
    LiteralCut(input, pos, lit);
    HoldIn(r, lit);
  }

  /** The text breaks off inside a delimiter behind white space. */
  lemma StartCut(input: string, pos: nat, gap: string, lit: string, rest: string)
    requires IsTag(lit) && AllSpace(gap) && pos <= |input| && input[pos..] < gap + (lit + rest)
    requires |gap| < |input| - pos < |gap| + |lit|
    ensures FindLiteral(input, true, pos, lit) == Some(Match(gap, pos + |gap|, |input|))
  {
    hide Find, FindLiteral, Contains;
    var r, w, n := input[pos..], gap + (lit + rest), |gap|;
    assert r < gap + lit by {
      assert r == w[..|r|] == (gap + lit)[..|r|];
    }
    NoFirstNoTag(gap, lit);
    NotYetThere(input, pos, gap, lit);
    LiteralCut(input, pos, lit);
    assert r[n..] == w[n..|r|] == lit[..|r| - n];
    assert HoldsAt(r, lit, n);
    PartialStopLeast(r, lit, 0);
    HoldUnique(r, lit, HoldBack(r, lit, 0), n);
    assert r[..n] == w[..n] == gap;
  }

  /** Behind white space the text begins neither with the delimiter nor, where that matters, with a cut-off copy of it:
      whatever is found has text before it. */
  lemma LiteralElsewhere(input: string, partial: bool, pos: nat, gap: string, lit: string, y: string)
    requires IsTag(lit) && AllSpace(gap) && pos <= |input| && input[pos..] == gap + y && y != [] && !IsSpace(y[0])
    requires !(lit <= y) && (partial ==> !(y <= lit))
    ensures var m := FindLiteral(input, partial, pos, lit); m.Some? ==> !AllSpace(m.value.prelude)
  {
    hide FindLiteral, IsTag, AllSpace;
    var at := pos + |gap|;
    GapSpaces(input, pos, gap, y);
    var m := FindLiteral(input, partial, pos, lit);
    if m.Some? {
      var i := m.value.begin;
      MatchFirst(input, partial, pos, lit);
      NotMatchedAt(input, partial, pos, lit, at);
      assert !IsSpace(lit[0]) by { TagStarts(lit); }
      assert i > at;
      HasText(m.value.prelude, |gap|);
    }
  }

  lemma TagStarts(lit: string)
    requires IsTag(lit)
    ensures lit != [] && !IsSpace(lit[0])
  {
  }

  lemma HasText(s: string, i: nat)
    requires i < |s| && !IsSpace(s[i])
    ensures !AllSpace(s)
  {
  }

  lemma GapSpaces(input: string, pos: nat, gap: string, y: string)
    requires AllSpace(gap) && pos <= |input| && input[pos..] == gap + y
    ensures pos + |gap| <= |input| && input[pos + |gap|..] == y && (y != [] ==> input[pos + |gap|] == y[0])
    ensures forall k :: pos <= k < pos + |gap| ==> IsSpace(input[k])
  {
    var at := pos + |gap|;
    assert input[at..] == input[pos..][|gap|..] == y;
    forall k | pos <= k < at
      ensures IsSpace(input[k])
    {
      assert input[k] == input[pos..][k - pos] == gap[k - pos];
    }
  }

  /** Nothing is found where the text begins neither with the delimiter nor with a cut-off copy of it. */
  lemma NotMatchedAt(input: string, partial: bool, pos: nat, lit: string, at: nat)
    requires pos <= at <= |input| && !(lit <= input[at..]) && (partial ==> !(input[at..] <= lit))
    ensures var m := FindLiteral(input, partial, pos, lit); m.Some? ==> m.value.begin != at
  {
    hide Find;
    FindFirst(input, lit, pos);
    PartialStopLeast(input, lit, 0);
    OccursIsPrefix(input, lit, at);
    assert partial ==> !HoldsAt(input, lit, at);
  }

  /** What is found begins with the delimiter's first character. */
  lemma MatchFirst(input: string, partial: bool, pos: nat, lit: string)
    requires lit != [] && pos <= |input| && FindLiteral(input, partial, pos, lit).Some?
    ensures var i := FindLiteral(input, partial, pos, lit).value.begin; pos <= i < |input| && input[i] == lit[0]
  {
    hide Find;
    FindFirst(input, lit, pos);
    PartialStopLeast(input, lit, 0);
    var f := Find(input, lit, pos);
    if f.Some? {
      OccursFirst(input, lit, f.value);
    } else {
      var i := FindLiteral(input, partial, pos, lit).value.begin;
      HoldsFirst(input, lit, i);
    }
  }

  // ----- Prefixes

  /** A proper prefix of `a` + `b` that reaches past `a`. */
  lemma SplitPrefix(r: string, a: string, b: string)
    requires r < a + b && |a| <= |r|
    ensures r == a + r[|a|..] && r[|a|..] < b
  {
    var w := a + b;
    assert r[..|a|] == w[..|a|] == a;
    assert r[|a|..] == w[|a|..|r|] == b[..|r| - |a|];
  }

  lemma ShorterPrefix(r: string, a: string, b: string)
    requires r < a + b && |r| < |a|
    ensures r < a
  {
    assert r == (a + b)[..|r|] == a[..|r|];
  }

  lemma ProperPrefix(a: string, b: string)
    requires a <= b && !(b <= a)
    ensures |a| < |b|
  {
    assert b[..|b|] == b;
  }

  lemma PrefixTransitive(a: string, b: string, c: string)
    requires a <= b && b <= c
    ensures a <= c
  {
  }

  lemma PrefixesOfOne(a: string, b: string, r: string)
    requires a <= r && b <= r
    ensures a <= b || b <= a
  {
    if |a| <= |b| {
      assert a == r[..|a|] == b[..|a|];
    } else {
      assert b == r[..|b|] == a[..|b|];
    }
  }

  /** Neither is a prefix of the other. */
  predicate Apart(a: string, b: string) {
    !(a <= b) && !(b <= a)
  }

  lemma ApartStays(a: string, b: string, r: string)
    requires Apart(a, b) && b <= r
    ensures !(a <= r) && !(r <= a)
  {
    if a <= r {
      PrefixesOfOne(a, b, r);
    } else if r <= a {
      PrefixTransitive(b, r, a);
    }
  }

  /** The beginning of white space is white space. */
  lemma SpacePrefix(r: string, gap: string)
    requires AllSpace(gap) && r <= gap
    ensures AllSpace(r)
  {
  }

  // ----- The dump

  /** The dump up to where the next pair goes. */
  function Base(args: Args): string {
    if args == [] then "{" else DumpOpen(args) + ","
  }

  lemma DumpOpenSnoc(args: Args, p: (string, string))
    ensures DumpOpen(args + [p]) == Base(args) + Pair(p)
  {
    var all := args + [p];
    if args == [] {
      assert all == [p];
    } else {
      assert all[..|all| - 1] == args;
    }
  }

  predicate HasKey(args: Args, key: string) {
    exists i :: 0 <= i < |args| && args[i].0 == key
  }

  lemma PutNew(args: Args, key: string, value: string)
    requires !HasKey(args, key)
    ensures Put(args, key, value) == args + [(key, value)]
  {
    if args != [] {
      assert args[0].0 != key;
      forall i | 0 <= i < |args[1..]|
        ensures args[1..][i].0 != key
      {
        assert args[i + 1].0 != key;
      }
      PutNew(args[1..], key, value);
      assert [args[0]] + (args[1..] + [(key, value)]) == args + [(key, value)];
    }
  }

  /** partial_json finds the needle it is meant to find. */
  lemma PartialJsonCuts(x: string, tail: string)
    requires IsJsonTail(tail)
    ensures PartialJson(x + NEEDLE + tail) == Some(DropQuote(x))
  {
    hide IsJsonTail;
    var s := x + NEEDLE + tail;
    assert s[|x|..|x| + |NEEDLE|] == NEEDLE;
    assert OccursAt(s, NEEDLE, |x|);
    forall j: nat | |x| < j
      ensures !OccursAt(s, NEEDLE, j)
    {
      if OccursAt(s, NEEDLE, j) {
        assert s[j..j + |NEEDLE|][25] == s[j + 25];
        assert NEEDLE[25] == 'G';
        assert s[j + 25] == tail[j + 25 - |x| - 26];
        JsonTailChar(tail, j - |x| - 1);
      }
    }
    assert RFind(s, NEEDLE, |s|) == Some(|x|);
    assert s[..|x|] == x && s[|x| + |NEEDLE|..] == tail;
  }

  lemma JsonTailChar(tail: string, i: nat)
    requires IsJsonTail(tail) && i < |tail|
    ensures tail[i] != 'G'
  {
  }

  lemma NeedlePlain()
    ensures Escape(NEEDLE) == NEEDLE
  {
    assert NoEscapes(NEEDLE);
    EscapePlain(NEEDLE);
  }

  lemma KeyDumpText(b: string, e: string)
    ensures b + ("\"" + (e + NEEDLE) + "\":\"" + [] + "\"") + "}" == (b + "\"" + e) + NEEDLE + "\":\"\"}"
  {
  }

  lemma ValueDumpText(b: string, k: string, e: string)
    ensures b + ("\"" + k + "\":\"" + (e + NEEDLE) + "\"") + "}" == (b + "\"" + k + "\":\"" + e) + NEEDLE + "\"}"
  {
  }

  lemma DumpNew(args: Args, key: string, value: string)
    requires !HasKey(args, key)
    ensures Dump(Put(args, key, value)) == Base(args) + Pair((key, value)) + "}"
  {
    hide Pairs, Pair, Base;
    PutNew(args, key, value);
    DumpOpenSnoc(args, (key, value));
  }

  /** The arguments sent while a key is being read. */
  lemma CutInKey(name: string, args: Args, t: string)
    requires !HasKey(args, t + NEEDLE)
    ensures PartialCall(name, Put(args, t + NEEDLE, [])) == Named(name, DropQuote(Base(args) + "\"" + Escape(t)))
  {
    hide PartialJson, Escape, Base, Dump, DropQuote, Put, HasKey;
    DumpNew(args, t + NEEDLE, []);
    EscapeConcat(t, NEEDLE);
    NeedlePlain();
    EscapeNothing();
    KeyDumpText(Base(args), Escape(t));
    PartialJsonCuts(Base(args) + "\"" + Escape(t), "\":\"\"}");
  }

  /** The arguments sent while a value is being read. */
  lemma CutInValue(name: string, args: Args, key: string, t: string)
    requires !HasKey(args, key)
    ensures PartialCall(name, Put(args, key, t + NEEDLE))
         == Named(name, DropQuote(Base(args) + "\"" + Escape(key) + "\":\"" + Escape(t)))
  {
    hide PartialJson, Escape, Base, Dump, DropQuote, Put, HasKey;
    DumpNew(args, key, t + NEEDLE);
    EscapeConcat(t, NEEDLE);
    NeedlePlain();
    ValueDumpText(Base(args), Escape(key), Escape(t));
    PartialJsonCuts(Base(args) + "\"" + Escape(key) + "\":\"" + Escape(t), "\"}");
  }

  lemma DropQuoteMonotone(x: string, y: string)
    requires x <= y
    ensures DropQuote(x) <= DropQuote(y) && DropQuote(x) <= y
  {
  }
}

/** make_gbnf_excluding: the grammar that is to accept every text except those with a forbidden string in it. */
module Gbnf {
  import opened Text

  // ----- Sorting, as std::sort orders strings

  predicate LexLe(a: string, b: string) {
    a == [] || (b != [] && (a[0] < b[0] || (a[0] == b[0] && LexLe(a[1..], b[1..]))))
  }

  lemma LexTotal(a: string, b: string)
    ensures LexLe(a, b) || LexLe(b, a)
  {
  }

  lemma LexTransitive(a: string, b: string, c: string)
    requires LexLe(a, b) && LexLe(b, c)
    ensures LexLe(a, c)
  {
    if a != [] && a[0] == b[0] == c[0] {
      LexTransitive(a[1..], b[1..], c[1..]);
    }
  }

  predicate Sorted(fs: seq<string>) {
    forall i, j :: 0 <= i < j < |fs| ==> LexLe(fs[i], fs[j])
  }

  function InsertSorted(x: string, fs: seq<string>): seq<string> {
    if fs == [] || LexLe(x, fs[0]) then [x] + fs else [fs[0]] + InsertSorted(x, fs[1..])
  }

  lemma InsertIs(x: string, fs: seq<string>)
    ensures forall y :: y in InsertSorted(x, fs) <==> y == x || y in fs
  {
    if fs != [] {
      assert fs == [fs[0]] + fs[1..];
    }
  }

  lemma {:induction false} InsertKeeps(x: string, fs: seq<string>)
    requires Sorted(fs)
    ensures Sorted(InsertSorted(x, fs))
  {
    hide LexLe;
    var r := InsertSorted(x, fs);
    if fs != [] {
      if LexLe(x, fs[0]) {
        forall i, j | 0 <= i < j < |r|
          ensures LexLe(r[i], r[j])
        {
          if i == 0 && j > 1 {
            assert LexLe(fs[0], fs[j - 1]);
            LexTransitive(x, fs[0], fs[j - 1]);
          } else if i > 0 {
            assert LexLe(fs[i - 1], fs[j - 1]);
          }
        }
      } else {
        LexTotal(x, fs[0]);
        InsertKeeps(x, fs[1..]);
        InsertIs(x, fs[1..]);
        forall i, j | 0 <= i < j < |r|
          ensures LexLe(r[i], r[j])
        {
          if i == 0 {
            assert r[j] in InsertSorted(x, fs[1..]);
          } else {
            assert LexLe(r[1..][i - 1], r[1..][j - 1]);
          }
        }
      }
    }
  }

  function Sort(fs: seq<string>): seq<string> {
    if fs == [] then [] else InsertSorted(fs[0], Sort(fs[1..]))
  }

  lemma {:induction false} SortSorts(fs: seq<string>)
    ensures Sorted(Sort(fs)) && forall y :: y in Sort(fs) <==> y in fs
  {
    if fs != [] {
      SortSorts(fs[1..]);
      InsertKeeps(fs[0], Sort(fs[1..]));
      InsertIs(fs[0], Sort(fs[1..]));
      assert fs == [fs[0]] + fs[1..];
    }
  }

  // ----- The expression

  /** Nothing, or one character outside a class, or one of some characters followed by an expression. */
  datatype Expr = Never | Alts(outside: seq<char>, branches: seq<(char, Expr)>)

  predicate Matches(e: Expr, s: string)
    decreases |s|
  {
    e.Alts? && s != [] &&
    ((|s| == 1 && s[0] !in e.outside)
     || exists i | 0 <= i < |e.branches| :: e.branches[i].0 == s[0] && Matches(e.branches[i].1, s[1..]))
  }

  datatype Child = Child(c: char, from: nat, to: nat)

  /** The end of the run of strings with character `c` at `depth`. */
  function RunEnd(fs: seq<string>, j: nat, r: nat, depth: nat, c: char): (e: nat)
    requires j <= r <= |fs|
    ensures j <= e <= r
    ensures forall k :: j <= k < e ==> |fs[k]| > depth && fs[k][depth] == c
    ensures e < r ==> |fs[e]| <= depth || fs[e][depth] != c
    decreases r - j
  {
    if j < r && |fs[j]| > depth && fs[j][depth] == c then RunEnd(fs, j + 1, r, depth, c) else j
  }

  /** The strings from `i` to `r`, grouped by their character at `depth`. */
  function Children(fs: seq<string>, i: nat, r: nat, depth: nat): seq<Child>
    requires i <= r <= |fs|
    decreases r - i
  {
    if i == r then []
    else if |fs[i]| <= depth then Children(fs, i + 1, r, depth)
    else
      var c := fs[i][depth];
      var j := RunEnd(fs, i + 1, r, depth, c);
      [Child(c, i, j)] + Children(fs, j, r, depth)
  }

  /** The two loops at the head of build_expr. */
  method CollectChildren(fs: seq<string>, l: nat, r: nat, depth: nat) returns (children: seq<Child>)
    requires l <= r <= |fs|
    ensures children == Children(fs, l, r, depth)
  {
    children := [];
    var i := l;
    while i < r
      invariant l <= i <= r && children + Children(fs, i, r, depth) == Children(fs, l, r, depth)
    {
      if |fs[i]| <= depth {
        i := i + 1;
        continue;
      }
      var c := fs[i][depth];
      var j := i;
      while j < r && |fs[j]| > depth && fs[j][depth] == c
        invariant i <= j <= r && RunEnd(fs, j, r, depth, c) == RunEnd(fs, i, r, depth, c)
      {
        j := j + 1;
      }
      children := children + [Child(c, i, j)];
      i := j;
    }
  }

  function Longest(fs: seq<string>): (n: nat)
    ensures forall i :: 0 <= i < |fs| ==> |fs[i]| <= n
  {
    if fs == [] then 0
    else
      var n, m := Longest(fs[..|fs| - 1]), |fs[|fs| - 1]|;
      assert forall i :: 0 <= i < |fs| - 1 ==> fs[..|fs| - 1][i] == fs[i];
      if m > n then m else n
  }

  /** Every child's range lies in the list and its strings go deeper. */
  predicate Deeper(fs: seq<string>, cs: seq<Child>, depth: nat) {
    forall k :: 0 <= k < |cs| ==> cs[k].from < cs[k].to <= |fs| && |fs[cs[k].from]| > depth
  }

  lemma ChildrenDeeper(fs: seq<string>, i: nat, r: nat, depth: nat)
    requires i <= r <= |fs|
    ensures Deeper(fs, Children(fs, i, r, depth), depth)
    decreases r - i
  {
    if i < r {
      if |fs[i]| <= depth {
        ChildrenDeeper(fs, i + 1, r, depth);
      } else {
        ChildrenDeeper(fs, RunEnd(fs, i + 1, r, depth, fs[i][depth]), r, depth);
      }
    }
  }

  /** build_expr. */
  function Build(fs: seq<string>, l: nat, r: nat, depth: nat): Expr
    requires l <= r <= |fs| && depth <= Longest(fs)
    decreases Longest(fs) - depth, r - l + 1
  {
    var cs := Children(fs, l, r, depth);
    ChildrenDeeper(fs, l, r, depth);
    if cs == [] then Never
    else Alts(seq(|cs|, k requires 0 <= k < |cs| => cs[k].c), Branches(fs, cs, depth))
  }

  /** A child whose expression is empty gets no branch. */
  function Branches(fs: seq<string>, cs: seq<Child>, depth: nat): seq<(char, Expr)>
    requires Deeper(fs, cs, depth)
    decreases Longest(fs) - depth, 0, |cs|
  {
    if cs == [] then []
    else
      var e := Build(fs, cs[0].from, cs[0].to, depth + 1);
      (if e == Never then [] else [(cs[0].c, e)]) + Branches(fs, cs[1..], depth)
  }

  // ----- What the expression accepts

  /** `x` follows the first `depth` characters of `f`. */
  predicate Has(f: string, depth: nat, x: string) {
    depth <= |f| && x <= f[depth..]
  }

  predicate Continues(f: string, depth: nat, x: string) {
    Has(f, depth, x) && depth + |x| < |f|
  }

  function Init(v: string): string
    requires v != []
  {
    v[..|v| - 1]
  }

  /** `v` leaves the trie of these strings with its last character, and not earlier. */
  predicate Escapes(fs: seq<string>, l: nat, r: nat, depth: nat, v: string)
    requires l <= r <= |fs|
  {
    && v != []
    && (exists i :: l <= i < r && Continues(fs[i], depth, Init(v)))
    && (forall i :: l <= i < r ==> !Has(fs[i], depth, v))
  }

  /** The strings of a range have their first `depth` characters in common. */
  predicate Common(fs: seq<string>, l: nat, r: nat, depth: nat)
    requires l <= r <= |fs|
  {
    && (forall i :: l <= i < r ==> depth <= |fs[i]|)
    && (forall i, j :: l <= i < j < r ==> fs[i][..depth] == fs[j][..depth])
  }

  lemma {:induction false} OrderAt(a: string, b: string, d: nat)
    requires LexLe(a, b) && d <= |a| && d <= |b| && a[..d] == b[..d]
    ensures |a| == d || (|b| > d && a[d] <= b[d])
    decreases d
  {
    if d > 0 {
      assert a[..d][0] == b[..d][0];
      assert a[1..][..d - 1] == a[..d][1..] == b[..d][1..] == b[1..][..d - 1];
      OrderAt(a[1..], b[1..], d - 1);
    }
  }

  predicate ChildOk(fs: seq<string>, ch: Child, i: nat, r: nat, depth: nat)
    requires i <= r <= |fs|
  {
    i <= ch.from < ch.to <= r && forall m :: ch.from <= m < ch.to ==> |fs[m]| > depth && fs[m][depth] == ch.c
  }

  predicate Covered(cs: seq<Child>, m: nat) {
    exists k :: 0 <= k < |cs| && cs[k].from <= m < cs[k].to
  }

  /** The children are the groups of equal characters, and every longer string is in one of them. */
  predicate Grouped(fs: seq<string>, cs: seq<Child>, i: nat, r: nat, depth: nat)
    requires i <= r <= |fs|
  {
    && (forall k :: 0 <= k < |cs| ==> ChildOk(fs, cs[k], i, r, depth))
    && (forall k, k' :: 0 <= k < k' < |cs| ==> cs[k].c < cs[k'].c)
    && (forall m :: i <= m < r && |fs[m]| > depth ==> Covered(cs, m))
  }

  lemma CommonPart(fs: seq<string>, l: nat, r: nat, depth: nat, i: nat)
    requires l <= i <= r <= |fs| && Common(fs, l, r, depth)
    ensures Common(fs, i, r, depth)
  {
  }

  lemma OrderedPair(fs: seq<string>, l: nat, r: nat, depth: nat, i: nat, j: nat)
    requires Sorted(fs) && l <= i < j < r <= |fs| && Common(fs, l, r, depth)
    ensures |fs[i]| > depth ==> |fs[j]| > depth && fs[i][depth] <= fs[j][depth]
  {
    OrderAt(fs[i], fs[j], depth);
  }

  /** Behind the run of a character only greater ones come. */
  lemma BehindRun(fs: seq<string>, i: nat, r: nat, depth: nat, j: nat, m: nat)
    requires Sorted(fs) && i < r <= |fs| && Common(fs, i, r, depth) && |fs[i]| > depth
    requires j == RunEnd(fs, i + 1, r, depth, fs[i][depth]) && j <= m < r
    ensures |fs[m]| > depth && fs[i][depth] < fs[m][depth]
  {
    hide LexLe;
    OrderedPair(fs, i, r, depth, i, j);
    if j < m {
      OrderedPair(fs, i, r, depth, j, m);
    }
  }

  lemma {:induction false} ChildrenGroup(fs: seq<string>, i: nat, r: nat, depth: nat)
    requires Sorted(fs) && i <= r <= |fs| && Common(fs, i, r, depth)
    ensures Grouped(fs, Children(fs, i, r, depth), i, r, depth)
    decreases r - i
  {
    hide LexLe, Sorted, Common;
    if i < r {
      if |fs[i]| <= depth {
        CommonPart(fs, i, r, depth, i + 1);
        ChildrenGroup(fs, i + 1, r, depth);
      } else {
        var c := fs[i][depth];
        var j := RunEnd(fs, i + 1, r, depth, c);
        CommonPart(fs, i, r, depth, j);
        ChildrenGroup(fs, j, r, depth);
        OneMoreGroup(fs, Children(fs, j, r, depth), i, j, r, depth);
      }
    }
  }

  lemma OneMoreGroup(fs: seq<string>, cs: seq<Child>, i: nat, j: nat, r: nat, depth: nat)
    requires Sorted(fs) && i < r <= |fs| && Common(fs, i, r, depth) && |fs[i]| > depth
    requires j == RunEnd(fs, i + 1, r, depth, fs[i][depth]) && Grouped(fs, cs, j, r, depth)
    ensures Grouped(fs, [Child(fs[i][depth], i, j)] + cs, i, r, depth)
  {
    hide LexLe, Sorted, Common;
    var all := [Child(fs[i][depth], i, j)] + cs;
    forall k, k' | 0 <= k < k' < |all|
      ensures all[k].c < all[k'].c
    {
      assert all[k'] == cs[k' - 1];
      assert ChildOk(fs, cs[k' - 1], j, r, depth);
      if k == 0 {
        BehindRun(fs, i, r, depth, j, cs[k' - 1].from);
      } else {
        assert all[k] == cs[k - 1];
      }
    }
    forall k | 0 <= k < |all|
      ensures ChildOk(fs, all[k], i, r, depth)
    {
      if k > 0 {
        assert ChildOk(fs, cs[k - 1], j, r, depth);
      }
    }
    forall m | i <= m < r && |fs[m]| > depth
      ensures Covered(all, m)
    {
      if m < j {
        assert all[0].from <= m < all[0].to;
      } else {
        assert Covered(cs, m);
        var k :| 0 <= k < |cs| && cs[k].from <= m < cs[k].to;
        assert all[k + 1] == cs[k];
      }
    }
  }

  // ----- Branches

  predicate Branch(bs: seq<(char, Expr)>, c: char, v: string) {
    exists i | 0 <= i < |bs| :: bs[i].0 == c && Matches(bs[i].1, v)
  }

  predicate BranchOfChild(fs: seq<string>, cs: seq<Child>, depth: nat, c: char, v: string)
    requires Deeper(fs, cs, depth)
  {
    exists k | 0 <= k < |cs| :: cs[k].c == c && Matches(Build(fs, cs[k].from, cs[k].to, depth + 1), v)
  }

  lemma ConsBranch(x: (char, Expr), bs: seq<(char, Expr)>, c: char, v: string)
    ensures Branch([x] + bs, c, v) <==> (x.0 == c && Matches(x.1, v)) || Branch(bs, c, v)
  {
    hide Matches;
    var all := [x] + bs;
    if Branch(all, c, v) {
      var i :| 0 <= i < |all| && all[i].0 == c && Matches(all[i].1, v);
      if i > 0 {
        assert all[i] == bs[i - 1];
      }
    }
    if x.0 == c && Matches(x.1, v) {
      assert all[0] == x;
    }
    if Branch(bs, c, v) {
      var i :| 0 <= i < |bs| && bs[i].0 == c && Matches(bs[i].1, v);
      assert all[i + 1] == bs[i];
    }
  }

  lemma ConsChild(fs: seq<string>, cs: seq<Child>, depth: nat, c: char, v: string)
    requires Deeper(fs, cs, depth) && cs != []
    ensures Deeper(fs, cs[1..], depth)
    ensures BranchOfChild(fs, cs, depth, c, v) <==>
            (cs[0].c == c && Matches(Build(fs, cs[0].from, cs[0].to, depth + 1), v)) || BranchOfChild(fs, cs[1..], depth, c, v)
  {
    hide Matches, Build;
    var rest := cs[1..];
    assert forall k :: 0 <= k < |rest| ==> rest[k] == cs[k + 1];
    if BranchOfChild(fs, cs, depth, c, v) {
      var k :| 0 <= k < |cs| && cs[k].c == c && Matches(Build(fs, cs[k].from, cs[k].to, depth + 1), v);
      if k > 0 {
        assert rest[k - 1] == cs[k];
      }
    }
  }

  lemma {:induction false} BranchesAre(fs: seq<string>, cs: seq<Child>, depth: nat, c: char, v: string)
    requires Deeper(fs, cs, depth)
    ensures Branch(Branches(fs, cs, depth), c, v) <==> BranchOfChild(fs, cs, depth, c, v)
    decreases |cs|
  {
    hide Matches, Build, Branch, BranchOfChild;
    if cs == [] {
      NoBranch(fs, depth, c, v);
    } else {
      var e := Build(fs, cs[0].from, cs[0].to, depth + 1);
      ConsChild(fs, cs, depth, c, v);
      BranchesAre(fs, cs[1..], depth, c, v);
      if e == Never {
        NeverMatches(v);
        assert [] + Branches(fs, cs[1..], depth) == Branches(fs, cs[1..], depth);
      } else {
        ConsBranch((cs[0].c, e), Branches(fs, cs[1..], depth), c, v);
      }
    }
  }

  lemma NoBranch(fs: seq<string>, depth: nat, c: char, v: string)
    ensures !Branch([], c, v) && Deeper(fs, [], depth) && !BranchOfChild(fs, [], depth, c, v)
  {
  }

  lemma NeverMatches(v: string)
    ensures !Matches(Never, v)
  {
  }

  predicate Among(cs: seq<Child>, c: char) {
    exists k :: 0 <= k < |cs| && cs[k].c == c
  }

  lemma MatchesBuild(fs: seq<string>, l: nat, r: nat, depth: nat, v: string)
    requires l <= r <= |fs| && depth <= Longest(fs)
    ensures Deeper(fs, Children(fs, l, r, depth), depth)
    ensures var cs := Children(fs, l, r, depth);
            Matches(Build(fs, l, r, depth), v) <==>
            && cs != [] && v != []
            && ((|v| == 1 && !Among(cs, v[0])) || BranchOfChild(fs, cs, depth, v[0], v[1..]))
  {
    hide BranchOfChild, Children, Longest, Branches;
    var cs := Children(fs, l, r, depth);
    ChildrenDeeper(fs, l, r, depth);
    if v != [] && cs != [] {
      var e := Build(fs, l, r, depth);
      BranchesAre(fs, cs, depth, v[0], v[1..]);
      assert v[0] in e.outside <==> Among(cs, v[0]) by {
        assert forall k :: 0 <= k < |cs| ==> e.outside[k] == cs[k].c;
      }
      assert Matches(e, v) <==> (|v| == 1 && v[0] !in e.outside) || Branch(e.branches, v[0], v[1..]);
    }
  }

  /** One character ahead of `x`. */
  lemma HasStep(f: string, depth: nat, c: char, x: string)
    requires depth < |f|
    ensures Has(f, depth, [c] + x) <==> f[depth] == c && Has(f, depth + 1, x)
    ensures Continues(f, depth, [c] + x) <==> f[depth] == c && Continues(f, depth + 1, x)
  {
    var t := f[depth..];
    assert t == [f[depth]] + f[depth + 1..];
    var y := [c] + x;
    if y <= t {
      assert y[0] == t[0];
      assert x == y[1..] <= t[1..];
    }
  }

  lemma HasNeeds(f: string, depth: nat, x: string)
    requires x != [] && Has(f, depth, x)
    ensures depth < |f| && f[depth] == x[0]
  {
    assert x[0] == f[depth..][0];
  }

  lemma GroupCommon(fs: seq<string>, ch: Child, l: nat, r: nat, depth: nat)
    requires l <= r <= |fs| && Common(fs, l, r, depth) && ChildOk(fs, ch, l, r, depth)
    ensures Common(fs, ch.from, ch.to, depth + 1)
  {
    forall i, j | ch.from <= i < j < ch.to
      ensures fs[i][..depth + 1] == fs[j][..depth + 1]
    {
      assert fs[i][..depth + 1] == fs[i][..depth] + [fs[i][depth]];
      assert fs[j][..depth + 1] == fs[j][..depth] + [fs[j][depth]];
    }
  }

  /** The last step out of the trie. */
  lemma EscapesOne(fs: seq<string>, l: nat, r: nat, depth: nat, c: char)
    requires l <= r <= |fs| && Grouped(fs, Children(fs, l, r, depth), l, r, depth) && Common(fs, l, r, depth)
    ensures Escapes(fs, l, r, depth, [c]) <==> Children(fs, l, r, depth) != [] && !Among(Children(fs, l, r, depth), c)
  {
    hide Children, Has, Among, Grouped;
    var cs := Children(fs, l, r, depth);
    assert Init([c]) == [];
    forall i | l <= i < r
      ensures Continues(fs[i], depth, []) <==> depth < |fs[i]|
      ensures Has(fs[i], depth, [c]) <==> depth < |fs[i]| && fs[i][depth] == c
    {
      HasNothing(fs[i], depth);
      HasOne(fs[i], depth, c);
    }
    GroupedChars(fs, cs, l, r, depth, c);
  }

  /** The children are the characters that follow. */
  lemma GroupedChars(fs: seq<string>, cs: seq<Child>, l: nat, r: nat, depth: nat, c: char)
    requires l <= r <= |fs| && Grouped(fs, cs, l, r, depth)
    ensures cs != [] <==> exists i :: l <= i < r && depth < |fs[i]|
    ensures Among(cs, c) <==> exists i :: l <= i < r && depth < |fs[i]| && fs[i][depth] == c
  {
    forall k | 0 <= k < |cs|
      ensures l <= cs[k].from < r && |fs[cs[k].from]| > depth && fs[cs[k].from][depth] == cs[k].c
    {
      assert ChildOk(fs, cs[k], l, r, depth);
    }
    forall i | l <= i < r && depth < |fs[i]|
      ensures Among(cs, fs[i][depth])
    {
      assert Covered(cs, i);
      var k :| 0 <= k < |cs| && cs[k].from <= i < cs[k].to;
      assert ChildOk(fs, cs[k], l, r, depth);
    }
    if cs != [] {
      assert depth < |fs[cs[0].from]|;
    }
  }

  lemma HasNothing(f: string, depth: nat)
    requires depth <= |f|
    ensures Has(f, depth, [])
  {
  }

  lemma HasOne(f: string, depth: nat, c: char)
    requires depth <= |f|
    ensures Has(f, depth, [c]) <==> depth < |f| && f[depth] == c
  {
    if depth < |f| {
      assert [c] + [] == [c];
      HasStep(f, depth, c, []);
    }
  }

  /** Steps inside the trie stay in one group. */
  lemma EscapesMore(fs: seq<string>, l: nat, r: nat, depth: nat, c: char, v: string)
    requires l <= r <= |fs| && Grouped(fs, Children(fs, l, r, depth), l, r, depth) && v != []
    ensures Escapes(fs, l, r, depth, [c] + v) <==>
            exists k | 0 <= k < |Children(fs, l, r, depth)| ::
              var ch := Children(fs, l, r, depth)[k];
              ChildOk(fs, ch, l, r, depth) && ch.c == c && Escapes(fs, ch.from, ch.to, depth + 1, v)
  {
    hide Children, Has, Continues;
    var cs, w := Children(fs, l, r, depth), [c] + v;
    assert Init(w) == [c] + Init(v);
    if Escapes(fs, l, r, depth, w) {
      var i :| l <= i < r && Continues(fs[i], depth, Init(w));
      ContinuesNeeds(fs[i], depth, Init(w));
      assert Covered(cs, i);
      var k :| 0 <= k < |cs| && cs[k].from <= i < cs[k].to;
      assert ChildOk(fs, cs[k], l, r, depth);
      IntoGroup(fs, cs[k], l, r, depth, c, v, i);
    }
    if k :| 0 <= k < |cs| && ChildOk(fs, cs[k], l, r, depth) && cs[k].c == c && Escapes(fs, cs[k].from, cs[k].to, depth + 1, v) {
      OutOfGroup(fs, cs, k, l, r, depth, c, v);
    }
  }

  lemma ContinuesNeeds(f: string, depth: nat, x: string)
    requires x != [] && Continues(f, depth, x)
    ensures depth < |f| && f[depth] == x[0]
  {
    HasNeeds(f, depth, x);
  }

  lemma IntoGroup(fs: seq<string>, ch: Child, l: nat, r: nat, depth: nat, c: char, v: string, i: nat)
    requires l <= r <= |fs| && ChildOk(fs, ch, l, r, depth) && v != [] && ch.c == c
    requires Escapes(fs, l, r, depth, [c] + v) && ch.from <= i < ch.to && Continues(fs[i], depth, [c] + Init(v))
    ensures Escapes(fs, ch.from, ch.to, depth + 1, v)
  {
    hide Has, Continues;
    HasStep(fs[i], depth, c, Init(v));
    forall m | ch.from <= m < ch.to
      ensures !Has(fs[m], depth + 1, v)
    {
      HasStep(fs[m], depth, c, v);
    }
  }

  lemma OutOfGroup(fs: seq<string>, cs: seq<Child>, k: nat, l: nat, r: nat, depth: nat, c: char, v: string)
    requires l <= r <= |fs| && Grouped(fs, cs, l, r, depth) && v != [] && k < |cs| && cs[k].c == c
    requires ChildOk(fs, cs[k], l, r, depth) && Escapes(fs, cs[k].from, cs[k].to, depth + 1, v)
    ensures Escapes(fs, l, r, depth, [c] + v)
  {
    hide Has, Continues;
    var w, ch := [c] + v, cs[k];
    assert Init(w) == [c] + Init(v);
    var i :| ch.from <= i < ch.to && Continues(fs[i], depth + 1, Init(v));
    HasStep(fs[i], depth, c, Init(v));
    forall m | l <= m < r
      ensures !Has(fs[m], depth, w)
    {
      NotHere(fs, cs, k, l, r, depth, c, v, m);
    }
  }

  lemma NotHere(fs: seq<string>, cs: seq<Child>, k: nat, l: nat, r: nat, depth: nat, c: char, v: string, m: nat)
    requires l <= m < r <= |fs| && Grouped(fs, cs, l, r, depth) && k < |cs| && cs[k].c == c
    requires forall i :: cs[k].from <= i < cs[k].to ==> !Has(fs[i], depth + 1, v)
    ensures !Has(fs[m], depth, [c] + v)
  {
    hide Has;
    if depth < |fs[m]| {
      HasStep(fs[m], depth, c, v);
      assert Covered(cs, m);
      var q :| 0 <= q < |cs| && cs[q].from <= m < cs[q].to;
      assert ChildOk(fs, cs[q], l, r, depth);
      SameGroup(fs, cs, l, r, depth, q, k);
    } else {
      HasNotEnough(fs[m], depth, [c] + v);
    }
  }

  lemma SameGroup(fs: seq<string>, cs: seq<Child>, l: nat, r: nat, depth: nat, q: nat, k: nat)
    requires l <= r <= |fs| && Grouped(fs, cs, l, r, depth) && q < |cs| && k < |cs|
    ensures cs[q].c == cs[k].c ==> q == k
  {
  }

  lemma HasNotEnough(f: string, depth: nat, x: string)
    requires |f| <= depth && x != []
    ensures !Has(f, depth, x)
  {
  }

  /** What build_expr makes of a sorted range accepts exactly the strings that leave the range's trie with their last
      character. */
  lemma {:induction false} BuildExact(fs: seq<string>, l: nat, r: nat, depth: nat, v: string)
    requires Sorted(fs) && l <= r <= |fs| && depth <= Longest(fs) && Common(fs, l, r, depth)
    ensures Matches(Build(fs, l, r, depth), v) <==> Escapes(fs, l, r, depth, v)
    decreases |v|
  {
    hide Matches, Build, Sorted, Common, Children, BranchOfChild, Among, Longest, LexLe;
    MatchesBuild(fs, l, r, depth, v);
    if v != [] {
      ChildrenGroup(fs, l, r, depth);
      var c, rest := v[0], v[1..];
      assert v == [c] + rest;
      if rest == [] {
        assert v == [c];
        EscapesOne(fs, l, r, depth, c);
        NoEmptyMatch(fs, l, r, depth, c);
      } else {
        EscapesMore(fs, l, r, depth, c, rest);
        ChildrenExact(fs, l, r, depth, c, rest);
      }
    }
  }

  lemma NoEmptyMatch(fs: seq<string>, l: nat, r: nat, depth: nat, c: char)
    requires l <= r <= |fs| && Deeper(fs, Children(fs, l, r, depth), depth)
    ensures !BranchOfChild(fs, Children(fs, l, r, depth), depth, c, [])
  {
    hide Build, Children;
  }

  lemma ChildrenExact(fs: seq<string>, l: nat, r: nat, depth: nat, c: char, v: string)
    requires Sorted(fs) && l <= r <= |fs| && depth <= Longest(fs) && Common(fs, l, r, depth)
    requires Grouped(fs, Children(fs, l, r, depth), l, r, depth) && Deeper(fs, Children(fs, l, r, depth), depth)
    ensures BranchOfChild(fs, Children(fs, l, r, depth), depth, c, v) <==>
            exists k | 0 <= k < |Children(fs, l, r, depth)| ::
              var ch := Children(fs, l, r, depth)[k];
              ChildOk(fs, ch, l, r, depth) && ch.c == c && Escapes(fs, ch.from, ch.to, depth + 1, v)
    decreases |v| + 1, 0
  {
    hide Matches, Build, Sorted, Children, LexLe, Escapes;
    var cs := Children(fs, l, r, depth);
    forall k | 0 <= k < |cs|
      ensures ChildOk(fs, cs[k], l, r, depth)
      ensures Matches(Build(fs, cs[k].from, cs[k].to, depth + 1), v) <==> Escapes(fs, cs[k].from, cs[k].to, depth + 1, v)
    {
      GroupCommon(fs, cs[k], l, r, depth);
      BuildExact(fs, cs[k].from, cs[k].to, depth + 1, v);
    }
  }

  // ----- The whole grammar

  datatype Grammar = AnyText | Star(e: Expr)

  /** make_gbnf_excluding. */
  function MakeExcluding(forbids: seq<string>): Grammar {
    if forbids == [] then AnyText
    else
      var fs := Sort(forbids);
      var e := Build(fs, 0, |fs|, 0);
      Star(if e == Never then Alts([], []) else e)
  }

  function Joined(parts: seq<string>): string {
    if parts == [] then [] else parts[0] + Joined(parts[1..])
  }

  predicate AllMatch(e: Expr, parts: seq<string>) {
    forall i :: 0 <= i < |parts| ==> Matches(e, parts[i])
  }

  ghost predicate Accepts(g: Grammar, s: string) {
    g.AnyText? || exists parts :: Joined(parts) == s && AllMatch(g.e, parts)
  }

  // ----- Escapes of a set of forbidden strings

  /** The shortest start of a text that is no longer the start of a forbidden string, with no forbidden string complete
      before its last character. */
  predicate IsEscape(forbids: seq<string>, u: string) {
    && u != []
    && (exists f <- forbids :: Init(u) < f)
    && (forall f <- forbids :: !(u <= f))
  }

  predicate NonEmpty(forbids: seq<string>) {
    forall f <- forbids :: f != []
  }

  /** No forbidden string begins another one. */
  predicate PrefixFree(forbids: seq<string>) {
    forall f <- forbids, g <- forbids :: !(f < g)
  }

  lemma EscapeIs(fs: seq<string>, forbids: seq<string>, u: string)
    requires forall y :: y in fs <==> y in forbids
    ensures Escapes(fs, 0, |fs|, 0, u) <==> IsEscape(forbids, u)
  {
    forall f: string
      ensures f[0..] == f
    {
    }
    if Escapes(fs, 0, |fs|, 0, u) {
      var i :| 0 <= i < |fs| && Continues(fs[i], 0, Init(u));
      assert fs[i] in forbids;
      forall f <- forbids
        ensures !(u <= f)
      {
        var k :| 0 <= k < |fs| && fs[k] == f;
        assert !Has(fs[k], 0, u);
      }
    }
    if IsEscape(forbids, u) {
      var f :| f in forbids && Init(u) < f;
      assert f in fs;
      var k :| 0 <= k < |fs| && fs[k] == f;
      assert Continues(fs[k], 0, Init(u));
      forall i | 0 <= i < |fs|
        ensures !Has(fs[i], 0, u)
      {
        assert fs[i] in forbids;
      }
    }
  }

  /** Main result: the generated expression accepts exactly the escapes of the forbidden strings. */
  lemma ExpressionExact(forbids: seq<string>, u: string)
    requires forbids != [] && NonEmpty(forbids)
    ensures MakeExcluding(forbids).Star?
    ensures Matches(MakeExcluding(forbids).e, u) <==> IsEscape(forbids, u)
  {
    hide Matches, Build, LexLe, Sort, Sorted, Longest;
    var fs := Sort(forbids);
    SortSorts(forbids);
    assert Common(fs, 0, |fs|, 0);
    BuildExact(fs, 0, |fs|, 0, u);
    EscapeIs(fs, forbids, u);
    if Build(fs, 0, |fs|, 0) == Never {
      SomethingEscapes(forbids, fs);
    }
  }

  /** With a non-empty forbidden string there is something to build. */
  lemma SomethingEscapes(forbids: seq<string>, fs: seq<string>)
    requires forbids != [] && NonEmpty(forbids) && forall y :: y in fs <==> y in forbids
    ensures Build(fs, 0, |fs|, 0) != Never
  {
    var f := forbids[0];
    assert f in fs;
    var k :| 0 <= k < |fs| && fs[k] == f;
    assert fs[k] != [];
    SomeChild(fs, 0, |fs|, k);
  }

  lemma SomeChild(fs: seq<string>, i: nat, r: nat, k: nat)
    requires i <= k < r <= |fs| && fs[k] != []
    ensures Children(fs, i, r, 0) != []
    decreases r - i
  {
  }

  // ----- Splits

  predicate AllEscape(forbids: seq<string>, parts: seq<string>) {
    forall i :: 0 <= i < |parts| ==> IsEscape(forbids, parts[i])
  }

  lemma BothPrefixes(a: string, b: string, s: string)
    requires a <= s && b <= s
    ensures a <= b || b <= a
  {
    if |a| <= |b| {
      assert a == s[..|a|] == b[..|a|];
    } else {
      assert b == s[..|b|] == a[..|b|];
    }
  }

  /** No escape begins another one. */
  lemma EscapesArePrefixFree(forbids: seq<string>, u: string, v: string)
    requires IsEscape(forbids, u) && IsEscape(forbids, v) && u <= v
    ensures u == v
  {
  }

  lemma SplitHead(parts: seq<string>)
    requires parts != []
    ensures parts[0] <= Joined(parts) && Joined(parts)[|parts[0]|..] == Joined(parts[1..])
  {
  }

  lemma PartsAreText(forbids: seq<string>, parts: seq<string>)
    requires AllEscape(forbids, parts)
    ensures parts == [] <==> Joined(parts) == []
  {
    if parts != [] {
      assert IsEscape(forbids, parts[0]);
      SplitHead(parts);
    }
  }

  /** A text splits into escapes in one way only. */
  lemma {:induction false} SplitUnique(forbids: seq<string>, p: seq<string>, q: seq<string>)
    requires AllEscape(forbids, p) && AllEscape(forbids, q) && Joined(p) == Joined(q)
    ensures p == q
    decreases |p|
  {
    PartsAreText(forbids, p);
    PartsAreText(forbids, q);
    if p != [] {
      SplitHead(p);
      SplitHead(q);
      assert IsEscape(forbids, p[0]) && IsEscape(forbids, q[0]);
      BothPrefixes(p[0], q[0], Joined(p));
      if p[0] <= q[0] {
        EscapesArePrefixFree(forbids, p[0], q[0]);
      } else {
        EscapesArePrefixFree(forbids, q[0], p[0]);
      }
      SplitUnique(forbids, p[1..], q[1..]);
      assert p == [p[0]] + p[1..] && q == [q[0]] + q[1..];
    }
  }

  /** A forbidden string at the start of a text that splits begins another forbidden string. */
  lemma ForbiddenAtSplit(forbids: seq<string>, parts: seq<string>, f: string) returns (g: string)
    requires AllEscape(forbids, parts) && f in forbids && f != [] && f <= Joined(parts)
    ensures g in forbids && f < g
  {
    assert parts != [];
    SplitHead(parts);
    var u := parts[0];
    assert IsEscape(forbids, u);
    BothPrefixes(u, f, Joined(parts));
    g :| g in forbids && Init(u) < g;
    assert f <= Init(u) by {
      assert !(u <= f);
      assert f == u[..|f|];
    }
  }

  predicate Ascii(forbids: seq<string>) {
    forall f <- forbids :: forall i :: 0 <= i < |f| ==> f[i] as int < 0x80
  }

  ghost predicate NothingAtSplits(forbids: seq<string>) {
    forall parts: seq<string>, k: nat, f: string ::
      AllEscape(forbids, parts) && k <= |parts| && f in forbids ==> !(f <= Joined(parts[k..]))
  }

  /** Main result: no forbidden string begins at a place where an accepted text splits, if and only if the forbidden
      strings are prefix-free. */
  lemma SplitPointsExact(forbids: seq<string>)
    requires NonEmpty(forbids) && Ascii(forbids)
    ensures NothingAtSplits(forbids) <==> PrefixFree(forbids)
  {
    if PrefixFree(forbids) {
      forall parts: seq<string>, k: nat, f: string | AllEscape(forbids, parts) && k <= |parts| && f in forbids
        ensures !(f <= Joined(parts[k..]))
      {
        if f <= Joined(parts[k..]) {
          var g := ForbiddenAtSplit(forbids, parts[k..], f);
        }
      }
    }
    if !PrefixFree(forbids) {
      var f, g :| f in forbids && g in forbids && f < g;
      var u := f + [200 as char];
      assert Init(u) == f;
      EscapeByForeign(forbids, f, g);
      assert AllEscape(forbids, [u]);
      assert Joined([u]) == u + Joined([]) == u;
      assert [u][0..] == [u];
      assert f <= Joined([u][0..]);
    }
  }

  lemma EscapeByForeign(forbids: seq<string>, f: string, g: string)
    requires Ascii(forbids) && g in forbids && f < g
    ensures IsEscape(forbids, f + [200 as char])
  {
    var u := f + [200 as char];
    assert Init(u) == f;
    forall h <- forbids
      ensures !(u <= h)
    {
      if |u| <= |h| {
        assert h[|f|] as int < 0x80;
        assert u[|f|] == 200 as char;
      }
    }
  }

  // ----- The promise in the source's comment

  ghost predicate Splits(forbids: seq<string>, s: string) {
    exists parts :: Joined(parts) == s && AllEscape(forbids, parts)
  }

  /** The grammar accepts exactly the texts that split into escapes. */
  lemma AcceptsExact(forbids: seq<string>, s: string)
    requires forbids != [] && NonEmpty(forbids)
    ensures Accepts(MakeExcluding(forbids), s) <==> Splits(forbids, s)
  {
    hide Matches, MakeExcluding, IsEscape;
    ExpressionExact(forbids, s);
    forall u
      ensures Matches(MakeExcluding(forbids).e, u) <==> IsEscape(forbids, u)
    {
      ExpressionExact(forbids, u);
    }
    if Splits(forbids, s) {
      var parts :| Joined(parts) == s && AllEscape(forbids, parts);
      assert AllMatch(MakeExcluding(forbids).e, parts);
    }
    if Accepts(MakeExcluding(forbids), s) {
      var parts :| Joined(parts) == s && AllMatch(MakeExcluding(forbids).e, parts);
      assert AllEscape(forbids, parts);
    }
  }

  predicate HasForbidden(forbids: seq<string>, s: string) {
    exists f <- forbids :: Contains(s, f)
  }

  /** "Accept any strings except those containing any of the forbidden strings". */
  ghost predicate KeepsPromise(forbids: seq<string>) {
    forall s: string :: Accepts(MakeExcluding(forbids), s) <==> !HasForbidden(forbids, s)
  }

  predicate AllSingle(forbids: seq<string>) {
    forall f <- forbids :: |f| == 1
  }

  /** Both ways the promise can fail: a repeated first character hides a forbidden string, and a text that ends in the
      middle of one is refused. */
  lemma PromiseFails()
    ensures Accepts(MakeExcluding(["ab"]), "aab") && HasForbidden(["ab"], "aab")
    ensures !Accepts(MakeExcluding(["ab"]), "a") && !HasForbidden(["ab"], "a")
  {
    hide MakeExcluding;
    var forbids: seq<string> := ["ab"];
    AcceptsExact(forbids, "aab");
    AcceptsExact(forbids, "a");
    assert Init("aa") == "a" && Init("b") == "" && "a" < forbids[0] && "" < forbids[0];
    assert forbids[0] in forbids && forall f <- forbids :: f == forbids[0];
    assert "aa"[1] != forbids[0][1] && "b"[0] != forbids[0][0];
    assert IsEscape(forbids, "aa") && IsEscape(forbids, "b");
    var parts := ["aa", "b"];
    assert Joined(parts[1..]) == "b" + Joined([]) == "b";
    assert Joined(parts) == "aab" && AllEscape(forbids, parts);
    assert OccursAt("aab", forbids[0], 1);
    assert Contains("aab", forbids[0]);
    HalfSeen(forbids, forbids[0]);
    assert forbids[0][..1] == "a";
    assert !Contains("a", forbids[0]);
  }

  /** The first character of a longer forbidden string alone is refused. */
  lemma HalfSeen(forbids: seq<string>, f: string)
    requires f in forbids && |f| >= 2
    ensures !Splits(forbids, f[..1])
  {
    forall parts | Joined(parts) == f[..1]
      ensures !AllEscape(forbids, parts)
    {
      assert parts != [];
      SplitHead(parts);
      if AllEscape(forbids, parts) {
        StuckInTrie(forbids, f, parts[0]);
      }
    }
  }

  lemma StuckInTrie(forbids: seq<string>, f: string, u: string)
    requires f in forbids && u <= f
    ensures !IsEscape(forbids, u)
  {
  }

  lemma OnlyItself(s: string, g: string)
    requires |s| == 1 && g != [] && Contains(s, g)
    ensures g == s
  {
    var i :| 0 <= i <= |s| && OccursAt(s, g, i);
    assert s[0..1] == s;
  }

  lemma NotContained(forbids: seq<string>, f: string)
    requires f in forbids && |f| >= 2 && PrefixFree(forbids) && NonEmpty(forbids)
    ensures !HasForbidden(forbids, f[..1])
  {
    var s := f[..1];
    forall g <- forbids
      ensures !Contains(s, g)
    {
      assert g != s;
      if Contains(s, g) {
        OnlyItself(s, g);
      }
    }
  }

  lemma SameLength(u: string, f: string)
    ensures |u| == |f| && u <= f ==> u == f
  {
  }

  lemma SingleEscape(forbids: seq<string>, u: string)
    requires AllSingle(forbids) && forbids != []
    ensures IsEscape(forbids, u) <==> |u| == 1 && u !in forbids
  {
    forall f <- forbids
      ensures |u| == 1 && u <= f ==> u == f
    {
      SameLength(u, f);
    }
    if |u| == 1 && u !in forbids {
      assert Init(u) == [] && |forbids[0]| == 1;
      assert forbids[0] in forbids && Init(u) < forbids[0];
    }
    if IsEscape(forbids, u) {
      var f :| f in forbids && Init(u) < f;
      assert u in forbids ==> u <= u;
    }
  }

  function Singles(s: string): (r: seq<string>)
    ensures |r| == |s|
  {
    seq(|s|, i requires 0 <= i < |s| => [s[i]])
  }

  lemma {:induction false} JoinedSingles(s: string)
    ensures Joined(Singles(s)) == s
  {
    if s != [] {
      assert Singles(s)[1..] == Singles(s[1..]);
      JoinedSingles(s[1..]);
    }
  }

  lemma {:induction false} PartsOfLengthOne(parts: seq<string>)
    requires forall i :: 0 <= i < |parts| ==> |parts[i]| == 1
    ensures parts == Singles(Joined(parts))
  {
    if parts != [] {
      PartsOfLengthOne(parts[1..]);
      SplitHead(parts);
      assert Joined(parts) == [parts[0][0]] + Joined(parts[1..]);
      assert parts == [parts[0]] + parts[1..];
    }
  }

  lemma ContainsSingle(s: string, f: string)
    requires |f| == 1
    ensures Contains(s, f) <==> exists i :: 0 <= i < |s| && [s[i]] == f
  {
    if Contains(s, f) {
      var i :| 0 <= i <= |s| && OccursAt(s, f, i);
      assert s[i..i + 1] == [s[i]];
    }
    if i :| 0 <= i < |s| && [s[i]] == f {
      assert s[i..i + 1] == [s[i]];
      assert OccursAt(s, f, i);
    }
  }

  lemma SinglesSplit(forbids: seq<string>, s: string)
    requires AllSingle(forbids) && forbids != []
    ensures Splits(forbids, s) <==> !HasForbidden(forbids, s)
  {
    hide IsEscape, Contains;
    forall u
      ensures IsEscape(forbids, u) <==> |u| == 1 && u !in forbids
    {
      SingleEscape(forbids, u);
    }
    forall f <- forbids
      ensures Contains(s, f) <==> exists i :: 0 <= i < |s| && [s[i]] == f
    {
      ContainsSingle(s, f);
    }
    JoinedSingles(s);
    if Splits(forbids, s) {
      var parts :| Joined(parts) == s && AllEscape(forbids, parts);
      assert forall i :: 0 <= i < |parts| ==> IsEscape(forbids, parts[i]);
      PartsOfLengthOne(parts);
      assert forall i :: 0 <= i < |s| ==> parts[i] == [s[i]] && parts[i] !in forbids;
    }
    if !HasForbidden(forbids, s) {
      forall i | 0 <= i < |s|
        ensures IsEscape(forbids, Singles(s)[i])
      {
      }
      assert AllEscape(forbids, Singles(s));
    }
  }

  /** A forbidden string that begins another one is accepted with a foreign character behind it. */
  lemma PrefixSlips(forbids: seq<string>, f: string, g: string)
    requires Ascii(forbids) && f in forbids && g in forbids && f < g
    ensures Splits(forbids, f + [200 as char]) && HasForbidden(forbids, f + [200 as char])
  {
    var u := f + [200 as char];
    EscapeByForeign(forbids, f, g);
    assert Joined([u]) == u + Joined([]) == u;
    assert AllEscape(forbids, [u]);
    assert u[0..|f|] == f;
    assert OccursAt(u, f, 0);
  }

  /** The promise is kept exactly for sets of single characters. */
  lemma PromiseExact(forbids: seq<string>)
    requires forbids != [] && NonEmpty(forbids) && (Ascii(forbids) || PrefixFree(forbids))
    ensures KeepsPromise(forbids) <==> AllSingle(forbids)
  {
    hide MakeExcluding, Accepts, Splits, HasForbidden;
    if AllSingle(forbids) {
      forall s: string
        ensures Accepts(MakeExcluding(forbids), s) <==> !HasForbidden(forbids, s)
      {
        AcceptsExact(forbids, s);
        SinglesSplit(forbids, s);
      }
    } else if PrefixFree(forbids) {
      var f :| f in forbids && |f| != 1;
      assert f != [];
      AcceptsExact(forbids, f[..1]);
      HalfSeen(forbids, f);
      NotContained(forbids, f);
    } else {
      var f, g :| f in forbids && g in forbids && f < g;
      AcceptsExact(forbids, f + [200 as char]);
      PrefixSlips(forbids, f, g);
    }
  }
}

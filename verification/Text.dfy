/** String helpers of common.h and common.cpp. A `char` stands for one byte of a std::string. */
module Text {

  datatype Option<+T> = None | Some(value: T)

  function Front<T>(s: seq<T>): seq<T>
    requires s != []
  {
    s[..|s| - 1]
  }

  function Last<T>(s: seq<T>): T
    requires s != []
  {
    s[|s| - 1]
  }

  lemma FrontLast<T>(s: seq<T>, x: T)
    ensures Front(s + [x]) == s && Last(s + [x]) == x
  {
  }

  predicate IsDigit(c: char) { '0' <= c <= '9' }

  predicate IsHex(c: char) { IsDigit(c) || 'a' <= c <= 'f' || 'A' <= c <= 'F' }

  function HexValue(c: char): (v: int)
    ensures 0 <= v < 16
  {
    if '0' <= c <= '9' then c as int - 48
    else if 'a' <= c <= 'f' then c as int - 87
    else if 'A' <= c <= 'F' then c as int - 55
    else 0
  }

  /** std::isspace in the "C" locale: space, \t, \n, \v, \f, \r. */
  predicate IsSpace(c: char) {
    c == ' ' || 9 <= c as int <= 13
  }

  predicate AllSpace(s: string) {
    forall i :: 0 <= i < |s| ==> IsSpace(s[i])
  }

  predicate OccursAt(s: string, lit: string, i: nat) {
    i + |lit| <= |s| && s[i..i + |lit|] == lit
  }

  predicate Contains(s: string, lit: string) {
    exists i | 0 <= i <= |s| :: OccursAt(s, lit, i)
  }

  /** std::string::find: the first occurrence at or after `from`. */
  function Find(s: string, lit: string, from: nat): (r: Option<nat>)
    ensures r.Some? ==> from <= r.value && r.value + |lit| <= |s|
    decreases |s| - from
  {
    if from + |lit| > |s| then None
    else if s[from..from + |lit|] == lit then Some(from)
    else Find(s, lit, from + 1)
  }

  lemma FindFirst(s: string, lit: string, from: nat)
    ensures var r := Find(s, lit, from);
            && (r.Some? ==> OccursAt(s, lit, r.value) && forall j: nat :: from <= j < r.value ==> !OccursAt(s, lit, j))
            && (r.None? ==> forall j: nat :: from <= j ==> !OccursAt(s, lit, j))
    decreases |s| - from
  {
    if from + |lit| <= |s| && s[from..from + |lit|] != lit {
      FindFirst(s, lit, from + 1);
    }
  }

  /** The first occurrence is determined by its defining property. */
  lemma FindIs(s: string, lit: string, from: nat, i: nat)
    requires from <= i && OccursAt(s, lit, i)
    requires forall j: nat :: from <= j < i ==> !OccursAt(s, lit, j)
    ensures Find(s, lit, from) == Some(i)
  {
    FindFirst(s, lit, from);
  }

  /** `i` is a place where a cut-off copy of `stop` may begin: the rest of `s` is a non-empty prefix of it. */
  predicate HoldsAt(s: string, stop: string, i: nat) {
    i < |s| && s[i..] <= stop
  }

  /** string_find_partial_stop, as the least such place. */
  function PartialStop(s: string, stop: string): (r: Option<nat>)
    ensures r.Some? ==> r.value < |s|
  {
    PartialStopFrom(s, stop, 0)
  }

  function PartialStopFrom(s: string, stop: string, from: nat): (r: Option<nat>)
    ensures r.Some? ==> from <= r.value < |s|
    decreases |s| - from
  {
    if from >= |s| then None
    else if s[from..] <= stop then Some(from)
    else PartialStopFrom(s, stop, from + 1)
  }

  lemma PartialStopLeast(s: string, stop: string, from: nat)
    ensures var r := PartialStopFrom(s, stop, from);
            && (r.Some? ==> HoldsAt(s, stop, r.value) && forall j: nat :: from <= j < r.value ==> !HoldsAt(s, stop, j))
            && (r.None? ==> forall j: nat :: from <= j ==> !HoldsAt(s, stop, j))
    decreases |s| - from
  {
    if from < |s| && !(s[from..] <= stop) {
      PartialStopLeast(s, stop, from + 1);
    }
  }

  predicate EndsWith(s: string, suffix: string) {
    |suffix| <= |s| && s[|s| - |suffix|..] == suffix
  }

  /** The descending loop of string_find_partial_stop finds the least hold-back place. */
  method FindPartialStop(s: string, stop: string) returns (r: Option<nat>)
    ensures r == PartialStop(s, stop)
  {
    PartialStopLeast(s, stop, 0);
    if s != [] && stop != [] {
      var maxLen := if |s| < |stop| then |s| else |stop|;
      var lastChar := s[|s| - 1];
      var len := maxLen;
      while len > 0
        invariant 0 <= len <= maxLen
        invariant forall j: nat :: j < |s| - len ==> !HoldsAt(s, stop, j)
      {
        assert HoldsAt(s, stop, |s| - len) <==> EndsWith(s, stop[..len]);
        assert s[|s| - len..][len - 1] == lastChar;
        if stop[len - 1] == lastChar {
          if EndsWith(s, stop[..len]) {
            return Some(|s| - len);
          }
        }
        len := len - 1;
      }
    }
    assert forall j: nat :: !HoldsAt(s, stop, j);
    return None;
  }

  /** Where `stop` may still begin in text that has been read from `from` on; the end of the text if nowhere. */
  function HoldBack(s: string, stop: string, from: nat): (r: nat)
    requires from <= |s|
    ensures from <= r <= |s|
  {
    match PartialStopFrom(s, stop, from)
    case Some(i) => i
    case None => |s|
  }

  lemma OccursInPrefix(s: string, t: string, lit: string, i: nat)
    requires s <= t
    ensures OccursAt(s, lit, i) <==> OccursAt(t, lit, i) && i + |lit| <= |s|
  {
    if i + |lit| <= |s| {
      assert s[i..i + |lit|] == t[i..i + |lit|];
    }
  }

  /** Hold-back is exact: an occurrence of `stop` in any extension that was not already there
      starts at or after the held-back place. */
  lemma HoldBackExact(s: string, t: string, stop: string, from: nat, i: nat)
    requires s <= t && from <= |s|
    requires stop != []
    requires from <= i && OccursAt(t, stop, i)
    requires forall j: nat :: from <= j ==> !OccursAt(s, stop, j)
    ensures HoldBack(s, stop, from) <= i
  {
    PartialStopLeast(s, stop, from);
    if i < |s| {
      assert !OccursAt(s, stop, i);
      OccursInPrefix(s, t, stop, i);
      assert s[i..] == stop[..|s| - i] by {
        assert t[i..i + |stop|] == stop;
        assert forall k :: 0 <= k < |s| - i ==> s[i..][k] == t[i..i + |stop|][k];
      }
      assert HoldsAt(s, stop, i);
    }
  }

  /** Hold-back never moves left as the text grows. */
  lemma HoldBackMonotone(s: string, t: string, stop: string, from: nat)
    requires s <= t && from <= |s|
    ensures HoldBack(s, stop, from) <= HoldBack(t, stop, from)
  {
    PartialStopLeast(s, stop, from);
    PartialStopLeast(t, stop, from);
    var r := HoldBack(t, stop, from);
    if r < |s| {
      assert s[r..] <= t[r..];
      assert HoldsAt(s, stop, r);
    }
  }

  /** The loop's answer, read from a cursor: it is the hold-back of the unread part, moved to the cursor. */
  lemma HoldBackSuffix(s: string, stop: string, from: nat)
    requires from <= |s|
    ensures HoldBack(s[from..], stop, 0) + from == HoldBack(s, stop, from)
  {
    var u := s[from..];
    PartialStopLeast(u, stop, 0);
    PartialStopLeast(s, stop, from);
    forall j: nat
      ensures HoldsAt(u, stop, j) <==> HoldsAt(s, stop, j + from)
    {
      if j < |u| {
        assert u[j..] == s[j + from..];
      }
    }
    var r := HoldBack(u, stop, 0);
    var q := HoldBack(s, stop, from);
    assert HoldsAt(u, stop, r) <==> HoldsAt(s, stop, r + from);
    assert HoldsAt(u, stop, q - from) <==> HoldsAt(s, stop, q - from + from);
  }

  /** The first index at or after `i` that is not a space. */
  function SkipSpaces(s: string, i: nat): (r: nat)
    requires i <= |s|
    ensures i <= r <= |s|
    decreases |s| - i
  {
    if i < |s| && IsSpace(s[i]) then SkipSpaces(s, i + 1) else i
  }

  lemma SkipsSpaces(s: string, i: nat)
    requires i <= |s|
    ensures forall k :: i <= k < SkipSpaces(s, i) ==> IsSpace(s[k])
    ensures SkipSpaces(s, i) < |s| ==> !IsSpace(s[SkipSpaces(s, i)])
    decreases |s| - i
  {
    if i < |s| && IsSpace(s[i]) {
      SkipsSpaces(s, i + 1);
    }
  }

  /** One past the last index before `j` that is not a space, or `i`. */
  function TrimEnd(s: string, i: nat, j: nat): (r: nat)
    requires i <= j <= |s|
    ensures i <= r <= j
    decreases j
  {
    if i < j && IsSpace(s[j - 1]) then TrimEnd(s, i, j - 1) else j
  }

  lemma TrimsSpaces(s: string, i: nat, j: nat)
    requires i <= j <= |s|
    ensures forall k :: TrimEnd(s, i, j) <= k < j ==> IsSpace(s[k])
    ensures TrimEnd(s, i, j) > i ==> !IsSpace(s[TrimEnd(s, i, j) - 1])
    decreases j
  {
    if i < j && IsSpace(s[j - 1]) {
      TrimsSpaces(s, i, j - 1);
    }
  }

  function Strip(s: string): string {
    var i := SkipSpaces(s, 0);
    s[i..TrimEnd(s, i, |s|)]
  }

  /** string_strip: two index loops that move towards each other. */
  method StringStrip(s: string) returns (r: string)
    ensures r == Strip(s)
  {
    var start, end := 0, |s|;
    while start < end && IsSpace(s[start])
      invariant 0 <= start <= end == |s|
      invariant SkipSpaces(s, 0) == SkipSpaces(s, start)
    {
      start := start + 1;
    }
    while end > start && IsSpace(s[end - 1])
      invariant start <= end <= |s|
      invariant TrimEnd(s, start, |s|) == TrimEnd(s, start, end)
    {
      end := end - 1;
    }
    r := s[start..end];
  }

  /** What stripping means: only spaces go, from both ends, and neither end of the result is a space. */
  lemma StripSplits(s: string) returns (pre: string, post: string)
    ensures s == pre + Strip(s) + post
    ensures AllSpace(pre) && AllSpace(post)
    ensures Strip(s) != [] ==> !IsSpace(Strip(s)[0]) && !IsSpace(Strip(s)[|Strip(s)| - 1])
    ensures Strip(s) == [] <==> AllSpace(s)
  {
    hide SkipSpaces, TrimEnd, IsSpace;
    var i := SkipSpaces(s, 0);
    var j := TrimEnd(s, i, |s|);
    SkipsSpaces(s, 0);
    TrimsSpaces(s, i, |s|);
    pre, post := s[..i], s[j..];
    assert i < |s| ==> !IsSpace(s[i]);
    assert Strip(s) == [] <==> i == j;
  }

  /** Stripping is monotone under growth on the right. */
  lemma StripMonotone(s: string, t: string)
    requires s <= t
    ensures Strip(s) <= Strip(t)
  {
    hide SkipSpaces, TrimEnd;
    var i := SkipSpaces(s, 0);
    SkipsSpaces(s, 0);
    SkipsSpaces(t, 0);
    TrimsSpaces(s, i, |s|);
    if i < |s| {
      var j, k := TrimEnd(s, i, |s|), TrimEnd(t, i, |t|);
      assert SkipSpaces(t, 0) == i by { assert !IsSpace(t[i]); }
      TrimsSpaces(t, i, |t|);
      assert j <= k by { assert j > i ==> !IsSpace(t[j - 1]); }
      SlicePrefix(s, t, i, j, k);
    }
  }

  /** A slice of a prefix begins the slice that ends no earlier. */
  lemma SlicePrefix(s: string, t: string, i: nat, j: nat, k: nat)
    requires s <= t && i <= j <= |s| && j <= k <= |t|
    ensures s[i..j] <= t[i..k]
  {
    assert s[i..j] == t[i..k][..j - i];
  }

  /** Text that neither begins nor ends with a space strips to itself, also between spaces. */
  lemma StripOf(pre: string, s: string, post: string)
    requires AllSpace(pre) && AllSpace(post)
    requires s != [] ==> !IsSpace(s[0]) && !IsSpace(s[|s| - 1])
    ensures Strip(pre + s + post) == s
  {
    var t := pre + s + post;
    var i := SkipSpaces(t, 0);
    SkipsSpaces(t, 0);
    TrimsSpaces(t, i, |t|);
    assert forall k :: 0 <= k < |pre| ==> IsSpace(t[k]);
    assert forall k :: |pre| + |s| <= k < |t| ==> IsSpace(t[k]);
    if s != [] {
      assert t[|pre|] == s[0];
      assert t[|pre| + |s| - 1] == s[|s| - 1];
      assert i == |pre|;
      assert TrimEnd(t, i, |t|) == |pre| + |s|;
    }
  }
}

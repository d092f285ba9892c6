/** Tool calls, rendered with the delimiters of a form and any white space before the tags, are read back exactly, and
    while the text is still arriving the parser's answer is a view of them. */
module XmlStreaming {
  import opened Text
  import opened ChatMessage
  import opened ChatParser
  import opened Utf8
  import opened JsonString
  import opened XmlToolCall
  import opened XmlRendering

  // ----- Calls as they are laid out

  /** A pair with the white space before it and before the second separator, where there is one. */
  datatype Item = Item(gap: string, key: string, mid: string, value: string)

  /** A call with the white space before it, behind its name and before its closing tag. */
  datatype Call = Call(gap: string, name: string, lead: string, items: seq<Item>, close: string)

  /** The second separator between key and value. */
  function Sep2(f: Form): string {
    if f.keyValSep2.Some? then f.keyValSep2.value else []
  }

  function RenderItem(f: Form, p: Item): string {
    p.gap + (f.keyStart + (p.key + f.keyValSep + (p.mid + Sep2(f) + (p.value + f.valEnd))))
  }

  function RenderItems(f: Form, items: seq<Item>): string {
    if items == [] then [] else RenderItem(f, items[0]) + RenderItems(f, items[1..])
  }

  function RenderCall(f: Form, c: Call): string {
    c.gap + (f.toolStart + (c.name + c.lead + f.toolSep + (RenderItems(f, c.items) + (c.close + f.toolEnd))))
  }

  predicate EmptyOrTag(lit: string) {
    lit == [] || IsTag(lit)
  }

  /** Delimiters in the style of MiniMax-M2, Seed-OSS and GLM-4.5. Where nothing separates the name from what follows, a key and
      the end of the tool begin with the same character. */
  predicate SafeForm(f: Form) {
    && EmptyOrTag(f.scopeStart) && EmptyOrTag(f.scopeEnd) && EmptyOrTag(f.toolSep) && EmptyOrTag(Sep2(f))
    && (f.keyValSep2.Some? ==> Sep2(f) != [])
    && IsTag(f.toolStart) && IsTag(f.keyStart) && IsTag(f.keyValSep) && IsTag(f.valEnd) && IsTag(f.toolEnd)
    && Apart(f.keyStart, f.toolEnd) && (f.scopeEnd != [] ==> Apart(f.toolStart, f.scopeEnd))
    && (f.toolSep == [] ==> f.keyStart[0] == f.toolEnd[0])
  }

  /** What ends a name, unless the tool ends first. */
  function NameEnder(f: Form): string {
    if f.toolSep == [] then f.keyStart else f.toolSep
  }

  /** The key and the value are UTF-8 and do not contain the delimiter that ends them. */
  ghost predicate SafeItem(f: Form, p: Item) {
    && AllSpace(p.gap) && AllSpace(p.mid) && (f.keyValSep2.None? ==> p.mid == [])
    && WellFormed(p.key) && !Contains(p.key, f.keyValSep)
    && WellFormed(p.value) && !Contains(p.value, f.valEnd)
  }

  /** The name is stripped already and, with the white space behind it, does not contain a delimiter that may end it. */
  predicate SafeName(f: Form, name: string, lead: string) {
    && name != [] && Strip(name) == name && AllSpace(lead)
    && !Contains(name + lead, NameEnder(f)) && !Contains(name + lead, f.toolEnd)
  }

  predicate DistinctKeys(items: seq<Item>) {
    forall i, j :: 0 <= i < j < |items| ==> items[i].key != items[j].key
  }

  /** The white space before the first pair, or before the closing tag if there is none. Where no separator comes between,
      all white space behind the name counts as `lead`. */
  function FirstGap(c: Call): string {
    if c.items == [] then c.close else c.items[0].gap
  }

  ghost predicate SafeCall(f: Form, c: Call)
    requires SafeForm(f)
  {
    && AllSpace(c.gap) && AllSpace(c.close)
    && (f.toolSep == [] ==> FirstGap(c) == [])
    && SafeName(f, c.name, c.lead) && DistinctKeys(c.items) && forall p <- c.items :: SafeItem(f, p)
  }

  /** The pairs as they are stored. */
  function Stored(f: Form, items: seq<Item>): Args {
    if items == [] then []
    else
      var v := items[0].value;
      [(items[0].key, if f.trim then Strip(v) else v)] + Stored(f, items[1..])
  }

  function FinalCall(f: Form, c: Call): ToolCall {
    ToolCall(c.name, Dump(Stored(f, c.items)), [])
  }

  // ----- What may go wrong while a call arrives

  /** What is known of `x` when the text breaks off before or in the delimiter `lit` behind it. */
  function Seen(lit: string, r: string): string {
    var h := HoldBack(r, lit, 0);
    if h < |r| then r[..h] else Truncated(r)
  }

  /** The key as it is shown when `n` bytes of it and of the separator behind it have arrived. */
  function ShownKey(f: Form, key: string, n: nat): string
    requires n <= |key + f.keyValSep|
  {
    Seen(f.keyValSep, (key + f.keyValSep)[..n])
  }

  /** A key that is still arriving is stored with the needle behind it; that may be the name of an earlier key. */
  ghost predicate NeedleClash(f: Form, items: seq<Item>) {
    exists i: nat, j: nat, n: nat :: Clash(f, items, i, j, n)
  }

  predicate Clash(f: Form, items: seq<Item>, i: nat, j: nat, n: nat) {
    i < j < |items| && n < |items[j].key + f.keyValSep| && items[i].key == ShownKey(f, items[j].key, n) + NEEDLE
  }

  /** Where the part `r` of a name seems to end: before a cut-off separator, or else before a cut-off closing tag. */
  function EarlyEnd(f: Form, r: string): (e: Option<nat>)
    ensures e.Some? ==> e.value < |r|
  {
    var h, e := HoldBack(r, NameEnder(f), 0), HoldBack(r, f.toolEnd, 0);
    if h < |r| then Some(h) else if e < |r| then Some(e) else None
  }

  /** While the name and the white space behind it arrive, a part of them that is not empty is taken for all. */
  predicate EndsEarlyAt(f: Form, name: string, n: nat) {
    n <= |name| && var e := EarlyEnd(f, name[..n]); e.Some? && e.value > 0
  }

  ghost predicate EndsEarly(f: Form, c: Call) {
    exists n: nat :: EndsEarlyAt(f, c.name + c.lead, n)
  }

  /** What a call needs so that it may also be read while it arrives. */
  ghost predicate Streamable(f: Form, c: Call)
    requires SafeForm(f)
  {
    SafeCall(f, c) && !EndsEarly(f, c) && !NeedleClash(f, c.items)
  }

  /** No stored key is mistaken for the key that is arriving. */
  predicate KeyFree(f: Form, args: Args, key: string) {
    forall n: nat :: n < |key + f.keyValSep| ==> !HasKey(args, ShownKey(f, key, n) + NEEDLE)
  }

  ghost predicate Clear(f: Form, args: Args, items: seq<Item>) {
    (forall j :: 0 <= j < |items| ==> KeyFree(f, args, items[j].key)) && !NeedleClash(f, items)
  }

  lemma ClearStep(f: Form, args: Args, items: seq<Item>, v: string)
    requires Clear(f, args, items) && items != []
    ensures KeyFree(f, args, items[0].key) && Clear(f, args + [(items[0].key, v)], items[1..])
  {
    hide ShownKey, HasKey, KeyFree;
    var more, rest := args + [(items[0].key, v)], items[1..];
    forall j | 0 <= j < |rest|
      ensures KeyFree(f, more, rest[j].key)
    {
      FreeOfOneMore(f, args, items, v, j + 1);
    }
    forall i: nat, j: nat, n: nat
      ensures !Clash(f, rest, i, j, n)
    {
      assert !Clash(f, items, i + 1, j + 1, n);
    }
  }

  lemma FreeOfOneMore(f: Form, args: Args, items: seq<Item>, v: string, j: nat)
    requires 0 < j < |items| && KeyFree(f, args, items[j].key) && !NeedleClash(f, items)
    ensures KeyFree(f, args + [(items[0].key, v)], items[j].key)
  {
    hide ShownKey;
    var key := items[j].key;
    forall n: nat | n < |key + f.keyValSep|
      ensures !HasKey(args + [(items[0].key, v)], ShownKey(f, key, n) + NEEDLE)
    {
      assert !HasKey(args, ShownKey(f, key, n) + NEEDLE);
      assert !Clash(f, items, 0, j, n);
    }
  }

  // ----- One pair

  lemma ValueRead(f: Form, input: string, partial: bool, pos: nat, name: string, args: Args, p: Item, y: string)
    requires SafeForm(f) && SafeItem(f, p) && pos <= |input| && input[pos..] == p.value + f.valEnd + y
    ensures ValueTurn(f, input, partial, pos, name, args, p.key)
         == NextPair(pos + |p.value| + |f.valEnd|, Put(args, p.key, Trimmed(f, p.value)))
    ensures pos + |p.value| + |f.valEnd| <= |input| && input[pos + |p.value| + |f.valEnd|..] == y
  {
    hide FindLiteral, IsTag, Contains, Put, Trimmed;
    LiteralAhead(input, partial, pos, p.value, f.valEnd, y);
  }

  /** Behind the first separator comes the second one, if any. */
  lemma SecondRead(f: Form, input: string, partial: bool, pos: nat, name: string, args: Args, p: Item, y: string)
    requires SafeForm(f) && SafeItem(f, p) && pos <= |input| && input[pos..] == p.mid + Sep2(f) + y
    ensures var at := pos + |p.mid| + |Sep2(f)|;
            && at <= |input| && input[at..] == y
            && SecondSepTurn(f, input, partial, pos, name, args, p.key) == ValueTurn(f, input, partial, at, name, args, p.key)
  {
    hide FindLiteral, IsTag, Contains, ValueTurn, WellFormed;
    if f.keyValSep2.Some? {
      assert p.mid + Sep2(f) + y == p.mid + (Sep2(f) + y);
      LiteralBehind(input, partial, pos, p.mid, Sep2(f), y);
    } else {
      assert p.mid + Sep2(f) + y == y;
    }
  }

  lemma KeyRead(f: Form, input: string, partial: bool, pos: nat, name: string, args: Args, p: Item, y: string)
    requires SafeForm(f) && SafeItem(f, p) && pos <= |input|
    requires input[pos..] == p.key + f.keyValSep + (p.mid + Sep2(f) + (p.value + f.valEnd + y))
    ensures var end := pos + |p.key| + |f.keyValSep| + |p.mid| + |Sep2(f)| + |p.value| + |f.valEnd|;
            && KeyTurn(f, input, partial, pos, name, args) == NextPair(end, Put(args, p.key, Trimmed(f, p.value)))
            && end <= |input| && input[end..] == y
  {
    hide FindLiteral, IsTag, Contains, Put, Trimmed, ValueTurn, SecondSepTurn, WellFormed;
    LiteralAhead(input, partial, pos, p.key, f.keyValSep, p.mid + Sep2(f) + (p.value + f.valEnd + y));
    var at := pos + |p.key| + |f.keyValSep|;
    SecondRead(f, input, partial, at, name, args, p, p.value + f.valEnd + y);
    ValueRead(f, input, partial, at + |p.mid| + |Sep2(f)|, name, args, p, y);
  }

  lemma ItemText(f: Form, p: Item, y: string)
    ensures RenderItem(f, p) + y == p.gap + (f.keyStart + (p.key + f.keyValSep + (p.mid + Sep2(f) + (p.value + f.valEnd + y))))
    ensures |RenderItem(f, p)| == |p.gap| + |f.keyStart| + |p.key| + |f.keyValSep| + |p.mid| + |Sep2(f)| + |p.value| + |f.valEnd|
  {
    var v := p.value + f.valEnd;
    assert p.mid + Sep2(f) + v + y == p.mid + Sep2(f) + (v + y);
    var k := p.key + f.keyValSep;
    assert k + (p.mid + Sep2(f) + v) + y == k + (p.mid + Sep2(f) + v + y);
    var w := k + (p.mid + Sep2(f) + v);
    assert p.gap + (f.keyStart + w) + y == p.gap + (f.keyStart + (w + y));
  }

  lemma PairRead(f: Form, input: string, partial: bool, pos: nat, name: string, args: Args, p: Item, y: string)
    requires SafeForm(f) && SafeItem(f, p) && pos <= |input| && input[pos..] == RenderItem(f, p) + y
    ensures OneArg(f, input, partial, pos, name, args)
         == NextPair(pos + |RenderItem(f, p)|, Put(args, p.key, Trimmed(f, p.value)))
    ensures pos + |RenderItem(f, p)| <= |input| && input[pos + |RenderItem(f, p)|..] == y
  {
    hide FindLiteral, IsTag, Contains, Put, Trimmed, KeyTurn, WellFormed;
    ItemText(f, p, y);
    LiteralBehind(input, partial, pos, p.gap, f.keyStart, p.key + f.keyValSep + (p.mid + Sep2(f) + (p.value + f.valEnd + y)));
    KeyRead(f, input, partial, pos + |p.gap| + |f.keyStart|, name, args, p, y);
  }

  function KeyText(args: Args, k: string): string {
    Base(args) + "\"" + Escape(k)
  }

  function ValueText(args: Args, k: string, v: string): string {
    Base(args) + "\"" + Escape(k) + "\":\"" + Escape(v)
  }

  /** The `arguments` text while one pair is being read. */
  function PairView(f: Form, args: Args, p: Item, r: string): string {
    var k := |p.gap| + |f.keyStart|;
    var n := k + |p.key| + |f.keyValSep|;
    var v := n + |p.mid| + |Sep2(f)|;
    if |r| < k then DumpOpen(args)
    else if |r| < n then DropQuote(KeyText(args, Seen(f.keyValSep, r[k..])))
    else if |r| < v then DropQuote(ValueText(args, p.key, []))
    else DropQuote(ValueText(args, p.key, Trimmed(f, Seen(f.valEnd, r[v..]))))
  }

  /** A cut-off delimiter is shorter than the delimiter. */
  lemma CutIsNotWhole(r: string, lit: string, x: string)
    requires IsTag(lit) && r < x + lit && !Contains(x, lit)
    ensures var h := HoldBack(r, lit, 0); h < |r| ==> |r| - h < |lit|
  {
    var h := HoldBack(r, lit, 0);
    PartialStopLeast(r, lit, 0);
    if h < |r| {
      assert r[h..] <= lit;
      NotYetThere(r, 0, x, lit);
      FindFirst(r, lit, 0);
      assert r[0..] == r;
      OccursIsPrefix(r, lit, h);
      ProperPrefix(r[h..], lit);
    }
  }

  /** The text breaks off inside the key: it is stored with the needle. */
  lemma KeyTurnCut(f: Form, input: string, pos: nat, name: string, args: Args, p: Item)
    requires SafeForm(f) && SafeItem(f, p) && pos <= |input| && input[pos..] < p.key + f.keyValSep
    ensures KeyTurn(f, input, true, pos, name, args)
         == CutOff(PartialCall(name, Put(args, Seen(f.keyValSep, input[pos..]) + NEEDLE, [])))
  {
    hide FindLiteral, Find, IsTag, Contains, PartialCall, Put, HoldBack, Truncated;
    var r := input[pos..];
    NotYetThere(input, pos, p.key, f.keyValSep);
    LiteralCut(input, pos, f.keyValSep);
    CutIsNotWhole(r, f.keyValSep, p.key);
  }

  lemma KeyCut(f: Form, input: string, pos: nat, name: string, args: Args, p: Item)
    requires SafeForm(f) && SafeItem(f, p) && KeyFree(f, args, p.key) && pos <= |input|
    requires input[pos..] < p.key + f.keyValSep
    ensures KeyTurn(f, input, true, pos, name, args) == CutOff(Named(name, DropQuote(KeyText(args, Seen(f.keyValSep, input[pos..])))))
  {
    hide IsTag, Contains, PartialCall, Put, Seen, HasKey, KeyTurn, Base, Escape, DropQuote;
    var r := input[pos..];
    assert r == (p.key + f.keyValSep)[..|r|];
    assert Seen(f.keyValSep, r) == ShownKey(f, p.key, |r|);
    KeyTurnCut(f, input, pos, name, args, p);
    CutInKey(name, args, Seen(f.keyValSep, r));
  }

  /** The text breaks off inside the value. */
  lemma ValueCut(f: Form, input: string, pos: nat, name: string, args: Args, p: Item)
    requires SafeForm(f) && SafeItem(f, p) && !HasKey(args, p.key) && pos <= |input|
    requires input[pos..] < p.value + f.valEnd
    ensures ValueTurn(f, input, true, pos, name, args, p.key)
         == CutOff(Named(name, DropQuote(ValueText(args, p.key, Trimmed(f, Seen(f.valEnd, input[pos..]))))))
  {
    hide FindLiteral, Find, IsTag, Contains, PartialCall, Put, HoldBack, Truncated, HasKey;
    var r := input[pos..];
    NotYetThere(input, pos, p.value, f.valEnd);
    LiteralCut(input, pos, f.valEnd);
    CutInValue(name, args, p.key, Trimmed(f, Seen(f.valEnd, r)));
    CutIsNotWhole(r, f.valEnd, p.value);
  }

  /** The text breaks off before or in the second separator: the value is stored as the needle alone. */
  lemma SecondCut(f: Form, input: string, pos: nat, name: string, args: Args, p: Item)
    requires SafeForm(f) && SafeItem(f, p) && !HasKey(args, p.key) && pos <= |input|
    requires input[pos..] < p.mid + Sep2(f)
    ensures SecondSepTurn(f, input, true, pos, name, args, p.key) == CutOff(Named(name, DropQuote(ValueText(args, p.key, []))))
  {
    hide FindLiteral, IsTag, Contains, PartialCall, Put, HasKey, WellFormed, ValueTurn, DropQuote, ValueText;
    var r := input[pos..];
    CutInValue(name, args, p.key, []);
    EscapeNothing();
    assert [] + NEEDLE == NEEDLE;
    if |r| <= |p.mid| {
      assert r <= p.mid by { assert r == (p.mid + Sep2(f))[..|r|] == p.mid[..|r|]; }
      SpacePrefix(r, p.mid);
      BlankFindsNothing(input, pos, Sep2(f));
    } else {
      assert Sep2(f) + [] == Sep2(f);
      StartCut(input, pos, p.mid, Sep2(f), []);
    }
    ValueTextIs(args, p.key);
  }

  lemma ValueTextIs(args: Args, key: string)
    ensures Base(args) + "\"" + Escape(key) + "\":\"" + Escape([]) == ValueText(args, key, [])
  {
  }

  /** The text breaks off behind the key. */
  lemma AfterKeyCut(f: Form, input: string, pos: nat, name: string, args: Args, p: Item)
    requires SafeForm(f) && SafeItem(f, p) && !HasKey(args, p.key) && pos <= |input|
    requires input[pos..] < p.mid + Sep2(f) + (p.value + f.valEnd)
    ensures var r, n := input[pos..], |p.mid| + |Sep2(f)|;
            SecondSepTurn(f, input, true, pos, name, args, p.key)
            == CutOff(Named(name, if |r| < n then DropQuote(ValueText(args, p.key, []))
                                  else DropQuote(ValueText(args, p.key, Trimmed(f, Seen(f.valEnd, r[n..]))))))
  {
    hide FindLiteral, IsTag, Contains, ValueTurn, SecondSepTurn, HasKey, Seen, ValueText, DropQuote, Trimmed, Named, WellFormed;
    var r, s := input[pos..], p.mid + Sep2(f);
    if |r| < |s| {
      ShorterPrefix(r, s, p.value + f.valEnd);
      SecondCut(f, input, pos, name, args, p);
    } else {
      SplitPrefix(r, s, p.value + f.valEnd);
      SecondRead(f, input, true, pos, name, args, p, r[|s|..]);
      ValueCut(f, input, pos + |s|, name, args, p);
    }
  }

  lemma ValueAfterKey(f: Form, input: string, pos: nat, name: string, args: Args, p: Item, v: string)
    requires SafeForm(f) && SafeItem(f, p) && !HasKey(args, p.key) && pos <= |input|
    requires input[pos..] == p.key + f.keyValSep + v && v < p.mid + Sep2(f) + (p.value + f.valEnd)
    ensures var n := |p.mid| + |Sep2(f)|;
            KeyTurn(f, input, true, pos, name, args)
            == CutOff(Named(name, if |v| < n then DropQuote(ValueText(args, p.key, []))
                                  else DropQuote(ValueText(args, p.key, Trimmed(f, Seen(f.valEnd, v[n..]))))))
  {
    hide FindLiteral, IsTag, Contains, SecondSepTurn, HasKey, Seen, ValueText, DropQuote, Trimmed, Named, WellFormed;
    LiteralAhead(input, true, pos, p.key, f.keyValSep, v);
    AfterKeyCut(f, input, pos + |p.key| + |f.keyValSep|, name, args, p);
  }

  /** The text breaks off behind the opening of a pair. */
  lemma OpenPairCut(f: Form, input: string, pos: nat, name: string, args: Args, p: Item)
    requires SafeForm(f) && SafeItem(f, p) && KeyFree(f, args, p.key) && !HasKey(args, p.key) && pos <= |input|
    requires input[pos..] < p.key + f.keyValSep + (p.mid + Sep2(f) + (p.value + f.valEnd))
    ensures var r, n := input[pos..], |p.key| + |f.keyValSep|;
            var v := n + |p.mid| + |Sep2(f)|;
            KeyTurn(f, input, true, pos, name, args)
            == CutOff(Named(name, if |r| < n then DropQuote(KeyText(args, Seen(f.keyValSep, r)))
                                  else if |r| < v then DropQuote(ValueText(args, p.key, []))
                                  else DropQuote(ValueText(args, p.key, Trimmed(f, Seen(f.valEnd, r[v..]))))))
  {
    hide IsTag, Contains, Seen, HasKey, KeyFree, KeyTurn, KeyText, ValueText, DropQuote, Trimmed, WellFormed;
    var r, k, rest := input[pos..], p.key + f.keyValSep, p.mid + Sep2(f) + (p.value + f.valEnd);
    if |r| < |k| {
      ShorterPrefix(r, k, rest);
      KeyCut(f, input, pos, name, args, p);
    } else {
      SplitPrefix(r, k, rest);
      ValueAfterKey(f, input, pos, name, args, p, r[|k|..]);
      var v := |k| + |p.mid| + |Sep2(f)|;
      assert |r| >= v ==> r[|k|..][v - |k|..] == r[v..];
    }
  }

  /** The text breaks off inside a pair, behind the white space before it. */
  lemma BehindGap(r: string, gap: string, lit: string, rest: string)
    requires r < gap + (lit + rest) && |gap| + |lit| <= |r|
    ensures var k := |gap| + |lit|; r == gap + (lit + r[k..]) && r[k..] < rest
  {
    assert gap + (lit + rest) == gap + lit + rest;
    SplitPrefix(r, gap + lit, rest);
    assert gap + (lit + r[|gap| + |lit|..]) == gap + lit + r[|gap| + |lit|..];
  }

  /** What follows the opening of a pair. */
  function Inside(f: Form, p: Item): string {
    p.key + f.keyValSep + (p.mid + Sep2(f) + (p.value + f.valEnd))
  }

  lemma KeyReached(f: Form, input: string, pos: nat, name: string, args: Args, p: Item)
    requires SafeForm(f) && SafeItem(f, p)
    requires pos <= |input| && input[pos..] < RenderItem(f, p) && |p.gap| + |f.keyStart| <= |input| - pos
    ensures var k := |p.gap| + |f.keyStart|;
            && input[pos + k..] == input[pos..][k..] < Inside(f, p)
            && OneArg(f, input, true, pos, name, args) == KeyTurn(f, input, true, pos + k, name, args)
  {
    hide FindLiteral, IsTag, Contains, KeyTurn, DumpOpen, AllSpace, WellFormed, Apart, Sep2, EmptyOrTag;
    var r, k := input[pos..], |p.gap| + |f.keyStart|;
    BehindGap(r, p.gap, f.keyStart, Inside(f, p));
    LiteralBehind(input, true, pos, p.gap, f.keyStart, r[k..]);
  }

  lemma PairCut(f: Form, input: string, pos: nat, name: string, args: Args, p: Item)
    requires SafeForm(f) && SafeItem(f, p) && KeyFree(f, args, p.key) && !HasKey(args, p.key)
    requires pos <= |input| && input[pos..] < RenderItem(f, p) && |p.gap| < |input| - pos
    ensures OneArg(f, input, true, pos, name, args) == CutOff(Named(name, PairView(f, args, p, input[pos..])))
  {
    hide FindLiteral, IsTag, Contains, Seen, HasKey, KeyFree, KeyTurn, KeyText, ValueText, DumpOpen, DropQuote, Trimmed, WellFormed;
    var r, k := input[pos..], |p.gap| + |f.keyStart|;
    if |r| < k {
      StartCut(input, pos, p.gap, f.keyStart, Inside(f, p));
    } else {
      KeyReached(f, input, pos, name, args, p);
      OpenPairCut(f, input, pos + k, name, args, p);
      var v := k + |p.key| + |f.keyValSep| + |p.mid| + |Sep2(f)|;
      assert |r| >= v ==> r[k..][v - k..] == r[v..];
    }
  }

  /** Behind the last pair there is no key. */
  lemma NoMorePairs(f: Form, input: string, partial: bool, pos: nat, name: string, args: Args, gap: string, y: string)
    requires SafeForm(f) && AllSpace(gap) && pos <= |input| && input[pos..] == gap + y && f.toolEnd <= y
    ensures OneArg(f, input, partial, pos, name, args) == NoKey
  {
    hide FindLiteral;
    assert y[0] == f.toolEnd[0];
    ApartStays(f.keyStart, f.toolEnd, y);
    LiteralElsewhere(input, partial, pos, gap, f.keyStart, y);
  }

  // ----- The arguments of one call

  /** The keys to come are new and distinct. */
  predicate Fresh(args: Args, items: seq<Item>) {
    DistinctKeys(items) && forall i :: 0 <= i < |items| ==> !HasKey(args, items[i].key)
  }

  lemma FreshStep(args: Args, items: seq<Item>, v: string)
    requires Fresh(args, items) && items != []
    ensures !HasKey(args, items[0].key) && Fresh(args + [(items[0].key, v)], items[1..])
  {
    var more, rest := args + [(items[0].key, v)], items[1..];
    forall i | 0 <= i < |rest|
      ensures !HasKey(more, rest[i].key)
    {
      assert !HasKey(args, items[i + 1].key);
    }
    assert forall i :: 0 <= i < |rest| ==> rest[i] == items[i + 1];
  }

  lemma RenderItemsSplit(f: Form, items: seq<Item>, y: string)
    requires items != []
    ensures RenderItems(f, items) + y == RenderItem(f, items[0]) + (RenderItems(f, items[1..]) + y)
    ensures |RenderItems(f, items)| == |RenderItem(f, items[0])| + |RenderItems(f, items[1..])|
  {
    hide RenderItem;
  }

  lemma RenderNone(f: Form, args: Args, y: string)
    ensures RenderItems(f, []) + y == y && |RenderItems(f, [])| == 0 && args + Stored(f, []) == args
  {
  }

  lemma StoredSplit(f: Form, args: Args, items: seq<Item>)
    requires items != []
    ensures args + [(items[0].key, Trimmed(f, items[0].value))] + Stored(f, items[1..]) == args + Stored(f, items)
  {
  }

  /** The key loop takes a complete pair. */
  lemma ArgumentsStep(f: Form, input: string, partial: bool, pos: nat, name: string, args: Args, p: Item, saw: bool, y: string)
    requires SafeForm(f) && SafeItem(f, p) && !HasKey(args, p.key)
    requires pos <= |input| && input[pos..] == RenderItem(f, p) + y
    ensures var next := pos + |RenderItem(f, p)|;
            && next <= |input| && input[next..] == y
            && Arguments(f, input, partial, pos, name, args, saw)
               == Arguments(f, input, partial, next, name, args + [(p.key, Trimmed(f, p.value))], true)
  {
    hide OneArg, SafeItem, IsTag, RenderItem, Put, Trimmed, HasKey;
    PairRead(f, input, partial, pos, name, args, p, y);
    PutNew(args, p.key, Trimmed(f, p.value));
  }

  /** The key loop takes all pairs that are complete, whatever comes behind them. */
  lemma {:induction false} ArgumentsReach(f: Form, input: string, partial: bool, pos: nat, name: string, args: Args, items: seq<Item>, saw: bool, y: string)
    requires SafeForm(f) && (forall p <- items :: SafeItem(f, p)) && Fresh(args, items)
    requires pos <= |input| && input[pos..] == RenderItems(f, items) + y
    ensures var end := pos + |RenderItems(f, items)|;
            && end <= |input| && input[end..] == y
            && Arguments(f, input, partial, pos, name, args, saw)
               == Arguments(f, input, partial, end, name, args + Stored(f, items), saw || items != [])
    decreases |items|
  {
    hide SafeItem, IsTag, Fresh, RenderItem, Trimmed, HasKey, RenderItems, Stored, Arguments;
    if items == [] {
      RenderNone(f, args, y);
    } else {
      var p, rest := items[0], items[1..];
      var v := Trimmed(f, p.value);
      FreshStep(args, items, v);
      RenderItemsSplit(f, items, y);
      ArgumentsStep(f, input, partial, pos, name, args, p, saw, RenderItems(f, rest) + y);
      ArgumentsReach(f, input, partial, pos + |RenderItem(f, p)|, name, args + [(p.key, v)], rest, true, y);
      StoredSplit(f, args, items);
    }
  }

  lemma ArgumentsRead(f: Form, input: string, partial: bool, pos: nat, name: string, args: Args, items: seq<Item>, saw: bool, gap: string, y: string)
    requires SafeForm(f) && (forall p <- items :: SafeItem(f, p)) && Fresh(args, items) && AllSpace(gap)
    requires pos <= |input| && input[pos..] == RenderItems(f, items) + (gap + y) && f.toolEnd <= y
    ensures var end := pos + |RenderItems(f, items)|;
            && end <= |input| && input[end..] == gap + y
            && Arguments(f, input, partial, pos, name, args, saw) == Complete(end, args + Stored(f, items), saw || items != [])
  {
    hide SafeItem, IsTag, Fresh, RenderItems, Stored, OneArg;
    ArgumentsReach(f, input, partial, pos, name, args, items, saw, gap + y);
    NoMorePairs(f, input, partial, pos + |RenderItems(f, items)|, name, args + Stored(f, items), gap, y);
  }

  /** The `arguments` text of a call whose rendering breaks off after `r`, read from behind its name on. */
  function ArgsView(f: Form, args: Args, items: seq<Item>, r: string): string
    decreases |items|
  {
    if items == [] then DumpOpen(args)
    else
      var n := |RenderItem(f, items[0])|;
      if |r| < n then PairView(f, args, items[0], r)
      else ArgsView(f, args + [(items[0].key, Trimmed(f, items[0].value))], items[1..], r[n..])
  }

  /** Nothing but white space is left. */
  lemma BlankLeft(f: Form, input: string, pos: nat, name: string, args: Args, saw: bool)
    requires SafeForm(f) && pos <= |input| && AllSpace(input[pos..])
    ensures CloseTool(f, input, true, name, Arguments(f, input, true, pos, name, args, saw)) == Unfinished(Named(name, DumpOpen(args)))
  {
    hide Named, DumpOpen, FindLiteral;
    BlankFindsNothing(input, pos, f.keyStart);
    BlankFindsNothing(input, pos, f.toolEnd);
  }

  lemma NothingLeft(f: Form, input: string, name: string, args: Args, saw: bool)
    requires SafeForm(f)
    ensures CloseTool(f, input, true, name, Arguments(f, input, true, |input|, name, args, saw)) == Unfinished(Named(name, DumpOpen(args)))
  {
    hide Named, DumpOpen, CloseTool, Arguments;
    BlankLeft(f, input, |input|, name, args, saw);
  }

  /** The text breaks off in the closing tag. */
  lemma ClosingCut(f: Form, input: string, pos: nat, name: string, args: Args, saw: bool, gap: string)
    requires SafeForm(f) && AllSpace(gap) && pos <= |input| && input[pos..] < gap + f.toolEnd
    ensures CloseTool(f, input, true, name, Arguments(f, input, true, pos, name, args, saw)) == Unfinished(Named(name, DumpOpen(args)))
  {
    hide FindLiteral, Named, DumpOpen, KeyTurn;
    var r := input[pos..];
    if |r| <= |gap| {
      assert r <= gap by { assert r == (gap + f.toolEnd)[..|r|] == gap[..|r|]; }
      SpacePrefix(r, gap);
      BlankLeft(f, input, pos, name, args, saw);
    } else {
      SplitPrefix(r, gap, f.toolEnd);
      var y := r[|gap|..];
      assert f.toolEnd + [] == f.toolEnd;
      StartCut(input, pos, gap, f.toolEnd, []);
      if f.keyStart <= y {
        PrefixTransitive(f.keyStart, y, f.toolEnd);
      } else if y <= f.keyStart {
        ProperPrefix(y, f.keyStart);
        CutTagToo(input, pos, gap, y, f.keyStart);
      } else {
        assert y[0] == f.toolEnd[0];
        LiteralElsewhere(input, true, pos, gap, f.keyStart, y);
      }
    }
  }

  /** What is left behind the white space may also be the beginning of another tag. */
  lemma CutTagToo(input: string, pos: nat, gap: string, y: string, lit: string)
    requires IsTag(lit) && AllSpace(gap) && pos <= |input| && input[pos..] == gap + y && y != [] && y <= lit && |y| < |lit|
    ensures FindLiteral(input, true, pos, lit) == Some(Match(gap, pos + |gap|, |input|))
  {
    hide FindLiteral;
    assert lit + [] == lit;
    assert gap + y == (gap + lit)[..|gap + y|];
    StartCut(input, pos, gap, lit, []);
  }

  lemma {:induction false} ArgumentsCut(f: Form, input: string, pos: nat, name: string, args: Args, items: seq<Item>, saw: bool, gap: string)
    requires SafeForm(f) && (forall p <- items :: SafeItem(f, p)) && Fresh(args, items) && Clear(f, args, items) && AllSpace(gap)
    requires pos <= |input| && input[pos..] < RenderItems(f, items) + (gap + f.toolEnd)
    ensures CloseTool(f, input, true, name, Arguments(f, input, true, pos, name, args, saw))
         == Unfinished(Named(name, ArgsView(f, args, items, input[pos..])))
    decreases |items|
  {
    hide IsTag, Fresh, Clear, KeyFree, Put, Trimmed, CloseTool, Named, DumpOpen, RenderItem, SafeItem, PairView, OneArg;
    var r := input[pos..];
    if items == [] {
      assert [] + (gap + f.toolEnd) == gap + f.toolEnd;
      ClosingCut(f, input, pos, name, args, saw, gap);
    } else {
      var p, rest := items[0], items[1..];
      var seg, v, tail := RenderItem(f, p), Trimmed(f, p.value), RenderItems(f, rest) + (gap + f.toolEnd);
      FreshStep(args, items, v);
      ClearStep(f, args, items, v);
      RenderItemsSplit(f, items, gap + f.toolEnd);
      if |r| < |seg| {
        ShorterPrefix(r, seg, tail);
        ItemCut(f, input, pos, name, args, p, saw);
      } else {
        SplitPrefix(r, seg, tail);
        ArgumentsStep(f, input, true, pos, name, args, p, saw, r[|seg|..]);
        ArgumentsCut(f, input, pos + |seg|, name, args + [(p.key, v)], rest, true, gap);
      }
    }
  }

  /** The text breaks off in the white space before a pair, or in the pair. */
  lemma ItemCut(f: Form, input: string, pos: nat, name: string, args: Args, p: Item, saw: bool)
    requires SafeForm(f) && SafeItem(f, p) && KeyFree(f, args, p.key) && !HasKey(args, p.key)
    requires pos <= |input| && input[pos..] < RenderItem(f, p)
    ensures CloseTool(f, input, true, name, Arguments(f, input, true, pos, name, args, saw))
         == Unfinished(Named(name, PairView(f, args, p, input[pos..])))
  {
    hide IsTag, KeyFree, HasKey, Contains, Named, DumpOpen, OneArg, WellFormed, KeyText, ValueText, Seen;
    var r := input[pos..];
    if |r| <= |p.gap| {
      assert r <= p.gap by { assert r == RenderItem(f, p)[..|r|] == p.gap[..|r|]; }
      SpacePrefix(r, p.gap);
      TagLength(f.keyStart);
      BlankLeft(f, input, pos, name, args, saw);
    } else {
      PairCut(f, input, pos, name, args, p);
    }
  }

  lemma TagLength(lit: string)
    requires IsTag(lit)
    ensures |lit| > 0
  {
  }

  // ----- One call

  /** What is found of the name's end: the name with the white space behind it. */
  function NameFound(pos: nat, full: string, end: nat): Option<Match> {
    Some(Match(full, pos + |full|, end))
  }

  lemma ContainsInPrefix(s: string, t: string, lit: string)
    requires s <= t && !Contains(t, lit)
    ensures !Contains(s, lit)
  {
    forall i | 0 <= i <= |s|
      ensures !OccursAt(s, lit, i)
    {
      OccursInPrefix(s, t, lit, i);
    }
  }

  lemma NameRead(f: Form, input: string, partial: bool, pos: nat, full: string, y: string)
    requires SafeForm(f) && f.toolSep != [] && !Contains(full, f.toolSep) && !Contains(full, f.toolEnd)
    requires pos <= |input| && input[pos..] == full + f.toolSep + y
    ensures pos + |full| + |f.toolSep| <= |input| && input[pos + |full| + |f.toolSep|..] == y
    ensures NameMatch(f, input, partial, pos) == NameFound(pos, full, pos + |full| + |f.toolSep|)
  {
    hide FindLiteral, Contains, IsTag;
    TagIsNotSpace(f.toolSep);
    LiteralAhead(input, partial, pos, full, f.toolSep, y);
  }

  /** The text breaks off in a delimiter behind text that does not contain it. */
  lemma FoundCut(input: string, pos: nat, x: string, lit: string, j: nat)
    requires IsTag(lit) && !Contains(x, lit) && 0 < j < |lit| && pos <= |input| && input[pos..] == x + lit[..j]
    ensures FindLiteral(input, true, pos, lit) == Some(Match(x, pos + |x|, |input|))
  {
    hide FindLiteral, Contains, Find;
    var r := input[pos..];
    assert r < x + lit by { assert (x + lit)[..|r|] == r; }
    NotYetThere(input, pos, x, lit);
    LiteralCut(input, pos, lit);
    PartialStopLeast(r, lit, 0);
    assert r[|x|..] == lit[..j];
    assert HoldsAt(r, lit, |x|);
    HoldUnique(r, lit, HoldBack(r, lit, 0), |x|);
    assert r[..|x|] == x;
  }

  /** The text breaks off in the separator behind the name. */
  lemma NameSepCut(f: Form, input: string, pos: nat, full: string, j: nat)
    requires SafeForm(f) && f.toolSep != [] && !Contains(full, f.toolSep) && !Contains(full, f.toolEnd)
    requires pos <= |input| && 0 < j < |f.toolSep| && input[pos..] == full + f.toolSep[..j]
    ensures NameMatch(f, input, true, pos) == NameFound(pos, full, |input|)
  {
    hide FindLiteral, Contains, IsTag;
    TagIsNotSpace(f.toolSep);
    FoundCut(input, pos, full, f.toolSep, j);
  }

  /** A delimiter begins nowhere in `x` when what follows `x` begins with the same character. */
  lemma BeginsNowhere(x: string, t: string, lit: string, i: nat)
    requires IsTag(lit) && !Contains(x, lit) && t != [] && t[0] == lit[0] && i < |x|
    ensures !OccursAt(x + t, lit, i) && !HoldsAt(x + t, lit, i)
  {
    hide Contains;
    var w := x + t;
    NotInside(x, lit, i);
    assert w[|x|] == t[0] && w[i..][|x| - i] == w[|x|];
    assert i + |lit| <= |x| ==> w[i..i + |lit|] == x[i..i + |lit|];
    assert i + |lit| <= |w| && |x| < i + |lit| ==> w[i..i + |lit|][|x| - i] == w[|x|];
  }

  lemma NotInside(x: string, lit: string, i: nat)
    requires !Contains(x, lit)
    ensures !OccursAt(x, lit, i)
  {
  }

  /** What follows the name begins with a key, whole or cut off. */
  lemma KeyBehindName(f: Form, input: string, partial: bool, pos: nat, full: string, t: string)
    requires SafeForm(f) && f.toolSep == [] && !Contains(full, f.keyStart) && !Contains(full, f.toolEnd)
    requires pos <= |input| && input[pos..] == full + t && t != [] && (f.keyStart <= t || (partial && t <= f.keyStart))
    ensures var m := NameMatch(f, input, partial, pos);
            m.Some? && m.value.prelude == full && m.value.begin == pos + |full|
  {
    hide FindLiteral, Contains, IsTag;
    if f.keyStart <= t {
      var y := t[|f.keyStart|..];
      assert t == f.keyStart + y && full + t == full + f.keyStart + y;
      LiteralAhead(input, partial, pos, full, f.keyStart, y);
    } else {
      ProperPrefix(t, f.keyStart);
      assert t == f.keyStart[..|t|];
      FoundCut(input, pos, full, f.keyStart, |t|);
    }
  }

  /** Where the key's tag is found when the tool's end comes first: not before it. */
  lemma KeyFoundLater(f: Form, input: string, partial: bool, pos: nat, full: string, t: string)
    requires SafeForm(f) && f.toolSep == [] && !Contains(full, f.keyStart)
    requires pos <= |input| && input[pos..] == full + t && t != [] && (f.toolEnd <= t || t <= f.toolEnd)
    requires !(f.keyStart <= t) && !(t <= f.keyStart)
    ensures var m := FindLiteral(input, partial, pos, f.keyStart);
            m.Some? ==> f.toolEnd <= t && full + f.toolEnd <= m.value.prelude
  {
    hide FindLiteral, Contains, IsTag, OccursAt, HoldsAt;
    var m := FindLiteral(input, partial, pos, f.keyStart);
    if m.Some? {
      var i := m.value.begin - pos;
      MatchIs(input, partial, pos, f.keyStart);
      assert t[0] == f.toolEnd[0] == f.keyStart[0];
      assert input[pos..][|full|..] == t;
      if i < |full| {
        BeginsNowhere(full, t, f.keyStart, i);
      } else if i == |full| {
        NotHere(full, t, f.keyStart);
      } else {
        assert t[i - |full|] == f.keyStart[0];
        InsideEnd(f, t, i - |full|);
        assert full + t == input[pos..];
        assert m.value.prelude == input[pos..][..i];
        PrefixOfFull(full, t, f.toolEnd, i);
      }
    }
  }

  lemma NotHere(x: string, t: string, lit: string)
    requires !(lit <= t) && !(t <= lit)
    ensures !OccursAt(x + t, lit, |x|) && !HoldsAt(x + t, lit, |x|)
  {
    var w := x + t;
    assert w[|x|..] == t;
    assert |lit| <= |t| ==> w[|x|..|x| + |lit|] == t[..|lit|];
  }

  /** Within the end tag only its first character begins a key. */
  lemma InsideEnd(f: Form, t: string, k: nat)
    requires SafeForm(f) && f.toolSep == [] && 0 < k < |t| && t[k] == f.keyStart[0] && (f.toolEnd <= t || t <= f.toolEnd)
    ensures f.toolEnd <= t && |f.toolEnd| <= k
  {
    assert t[k] == f.toolEnd[0];
  }

  lemma PrefixOfFull(full: string, t: string, end: string, i: nat)
    requires end <= t && |full| + |end| <= i <= |full + t|
    ensures full + end <= (full + t)[..i]
  {
    assert (full + t)[..|full| + |end|] == full + end;
  }

  /** What is found stands where the delimiter, or a cut-off copy of it, stands. */
  lemma MatchIs(input: string, partial: bool, pos: nat, lit: string)
    requires lit != [] && pos <= |input| && FindLiteral(input, partial, pos, lit).Some?
    ensures var m := FindLiteral(input, partial, pos, lit).value;
            var i := m.begin - pos;
            && i < |input[pos..]| && input[pos..][i] == lit[0] && m.prelude == input[pos..][..i]
            && (OccursAt(input[pos..], lit, i) || HoldsAt(input[pos..], lit, i))
  {
    hide Find;
    MatchFirst(input, partial, pos, lit);
    var m := FindLiteral(input, partial, pos, lit).value;
    assert input[pos..m.begin] == input[pos..][..m.begin - pos];
    FindFirst(input, lit, pos);
    PartialStopLeast(input, lit, 0);
    if Find(input, lit, pos).Some? {
      OccursInSuffix(input, pos, lit, m.begin);
    } else {
      assert input[m.begin..] == input[pos..][m.begin - pos..];
    }
  }

  /** What follows the name begins with the tool's end, whole or cut off. */
  lemma EndBehindName(f: Form, input: string, partial: bool, pos: nat, full: string, t: string)
    requires SafeForm(f) && f.toolSep == [] && !Contains(full, f.keyStart) && !Contains(full, f.toolEnd)
    requires pos <= |input| && input[pos..] == full + t && t != [] && (f.toolEnd <= t || (partial && t <= f.toolEnd))
    ensures var m := NameMatch(f, input, partial, pos);
            m.Some? && m.value.prelude == full && m.value.begin == pos + |full|
  {
    hide FindLiteral, Contains, IsTag;
    if partial && t <= f.keyStart {
      KeyBehindName(f, input, partial, pos, full, t);
    } else {
      if f.toolEnd <= t {
        ApartStays(f.keyStart, f.toolEnd, t);
        var y := t[|f.toolEnd|..];
        assert t == f.toolEnd + y && full + t == full + f.toolEnd + y;
        LiteralAhead(input, partial, pos, full, f.toolEnd, y);
      } else {
        ProperPrefix(t, f.toolEnd);
        NoKeyInEnd(f, t);
        assert t == f.toolEnd[..|t|];
        FoundCut(input, pos, full, f.toolEnd, |t|);
      }
      KeyFoundLater(f, input, partial, pos, full, t);
      var first := FindLiteral(input, partial, pos, f.keyStart);
      if first.Some? {
        EndContained(full, f.toolEnd, first.value.prelude);
      }
    }
  }

  lemma NoKeyInEnd(f: Form, t: string)
    requires SafeForm(f) && t <= f.toolEnd
    ensures !(f.keyStart <= t)
  {
    hide IsTag;
    if f.keyStart <= t {
      PrefixTransitive(f.keyStart, t, f.toolEnd);
    }
  }

  lemma EndContained(full: string, end: string, s: string)
    requires full + end <= s
    ensures Contains(s, end)
  {
    assert s[|full|..|full| + |end|] == (full + end)[|full|..] == end;
    assert OccursAt(s, end, |full|);
  }

  /** The text breaks off in the name: its end is found where it seems to be. */
  lemma NameCut(f: Form, input: string, pos: nat, full: string, n: nat)
    requires SafeForm(f) && !Contains(full, NameEnder(f)) && !Contains(full, f.toolEnd)
    requires n <= |full| && pos <= |input| && input[pos..] == full[..n]
    ensures NameMatch(f, input, true, pos) ==
            match EarlyEnd(f, full[..n]) case None => None case Some(e) => Some(Match(full[..e], pos + e, |input|))
  {
    hide FindLiteral, Contains, Find, Strip, HoldBack;
    var r := input[pos..];
    if f.toolSep != [] { TagIsNotSpace(f.toolSep); }
    CutTag(input, pos, full, n, NameEnder(f));
    CutTag(input, pos, full, n, f.toolEnd);
    var e := EarlyEnd(f, r);
    if e.Some? {
      ContainsInPrefix(full[..e.value], full, f.toolEnd);
    }
  }

  lemma CutTag(input: string, pos: nat, name: string, n: nat, lit: string)
    requires IsTag(lit) && !Contains(name, lit) && n <= |name| && pos <= |input| && input[pos..] == name[..n]
    ensures var h := HoldBack(name[..n], lit, 0);
            FindLiteral(input, true, pos, lit) == if h < n then Some(Match(name[..h], pos + h, |input|)) else None
  {
    hide FindLiteral, Contains, Find;
    var r := input[pos..];
    ContainsInPrefix(r, name, lit);
    assert r < r + lit;
    NotYetThere(input, pos, r, lit);
    LiteralCut(input, pos, lit);
    var h := HoldBack(r, lit, 0);
    assert r[..h] == name[..h];
  }

  lemma StripNothing()
    ensures Strip([]) == []
  {
  }

  /** The tool loop behind the end of the name: it goes on there, or in front of it where nothing separates the two. */
  function FromName(f: Form, m: Match): nat {
    if f.toolSep == [] then m.begin else m.end
  }

  function BehindMatch(f: Form, input: string, partial: bool, m: Match): ToolTurn
    requires f.Valid() && m.begin <= m.end <= |input|
  {
    CloseTool(f, input, partial, Strip(m.prelude), Arguments(f, input, partial, FromName(f, m), Strip(m.prelude), [], false))
  }

  /** Without a name nothing is shown. */
  lemma NoNameNoCall(f: Form, input: string, pos: nat, c: Call)
    requires SafeForm(f) && SafeCall(f, c) && !EndsEarly(f, c) && pos <= |input| && input[pos..] <= c.name + c.lead
    ensures var m := NameMatch(f, input, true, pos);
            m.Some? ==> BehindMatch(f, input, true, m.value) == Unfinished([])
  {
    hide FindLiteral, NameMatch, Contains, Strip, CloseTool, Arguments, AllSpace, DumpOpen, EarlyEnd, SafeItem;
    var r, full := input[pos..], c.name + c.lead;
    assert !EndsEarlyAt(f, full, |r|);
    NameCut(f, input, pos, full, |r|);
    assert full[..0] == [];
    StripNothing();
    var e := EarlyEnd(f, r);
    if e.Some? {
      assert r[0..] == r;
      if f.toolSep == [] { SeemingEnd(f, input, pos, full, |r|, 0, []); } else { NothingLeft(f, input, [], [], false); }
    }
  }

  /** The beginning of a tag, taken for the end of the name. */
  lemma SeemingEnd(f: Form, input: string, pos: nat, full: string, n: nat, e: nat, name: string)
    requires SafeForm(f) && f.toolSep == [] && !Contains(full, f.keyStart) && !Contains(full, f.toolEnd)
    requires n <= |full| && EarlyEnd(f, full[..n]) == Some(e) && pos <= |input| && input[pos..] == full[..n][e..]
    ensures CloseTool(f, input, true, name, Arguments(f, input, true, pos, name, [], false)) == Unfinished(Named(name, DumpOpen([])))
  {
    hide CloseTool, Arguments, Contains, DumpOpen, IsTag, HoldBack, Apart, EmptyOrTag;
    var r := full[..n];
    HoldIn(r, f.keyStart);
    HoldIn(r, f.toolEnd);
    if HoldBack(r, f.keyStart, 0) == e {
      NotWhole(r, e, full, f.keyStart);
      CutKeyLeft(f, input, pos, name, [], false);
    } else {
      NotWhole(r, e, full, f.toolEnd);
      assert [] + f.toolEnd == f.toolEnd;
      ClosingCut(f, input, pos, name, [], false, []);
    }
  }

  lemma NotWhole(r: string, e: nat, full: string, lit: string)
    requires r <= full && !Contains(full, lit) && e < |r| && r[e..] <= lit
    ensures r[e..] < lit
  {
    hide Contains;
    ContainsInPrefix(r, full, lit);
    NotInside(r, lit, e);
    assert r[e..|r|] == r[e..];
  }

  /** The text breaks off in the opening of a key. */
  lemma CutKeyLeft(f: Form, input: string, pos: nat, name: string, args: Args, saw: bool)
    requires SafeForm(f) && pos <= |input| && input[pos..] != [] && input[pos..] < f.keyStart
    ensures CloseTool(f, input, true, name, Arguments(f, input, true, pos, name, args, saw)) == Unfinished(Named(name, DumpOpen(args)))
  {
    hide FindLiteral, Named, DumpOpen, KeyTurn, IsTag, Apart, EmptyOrTag;
    var r := input[pos..];
    assert [] + r == r;
    ProperPrefix(r, f.keyStart);
    CutTagToo(input, pos, [], r, f.keyStart);
  }

  lemma NoKeysYet(f: Form, c: Call)
    requires SafeForm(f) && SafeCall(f, c)
    ensures (forall p <- c.items :: SafeItem(f, p)) && Fresh([], c.items) && c.name != []
    ensures [] + Stored(f, c.items) == Stored(f, c.items)
    ensures !NeedleClash(f, c.items) ==> Clear(f, [], c.items)
  {
    hide SafeItem, Strip, Contains, Stored, NeedleClash, ShownKey;
  }

  lemma CloseRead(f: Form, input: string, partial: bool, pos: nat, name: string, args: Args, saw: bool, gap: string, y: string)
    requires SafeForm(f) && AllSpace(gap) && pos <= |input| && input[pos..] == gap + (f.toolEnd + y) && name != []
    ensures var end := pos + |gap| + |f.toolEnd|;
            && end <= |input| && input[end..] == y
            && CloseTool(f, input, partial, name, Complete(pos, args, saw)) == Added(end, ToolCall(name, Dump(args), []))
  {
    hide FindLiteral, IsTag, Dump;
    LiteralBehind(input, partial, pos, gap, f.toolEnd, y);
  }

  /** Arguments and closing tag of a whole call. */
  lemma BodyRead(f: Form, input: string, partial: bool, pos: nat, c: Call, y: string)
    requires SafeForm(f) && SafeCall(f, c) && pos <= |input|
    requires input[pos..] == RenderItems(f, c.items) + (c.close + (f.toolEnd + y))
    ensures var end := pos + |RenderItems(f, c.items)| + |c.close| + |f.toolEnd|;
            && end <= |input| && input[end..] == y
            && CloseTool(f, input, partial, c.name, Arguments(f, input, partial, pos, c.name, [], false)) == Added(end, FinalCall(f, c))
  {
    hide SafeForm, SafeItem, Fresh, RenderItems, Stored, Dump, Arguments, CloseTool, SafeName, AllSpace;
    NoKeysYet(f, c);
    ArgumentsRead(f, input, partial, pos, c.name, [], c.items, false, c.close, f.toolEnd + y);
    CloseRead(f, input, partial, pos + |RenderItems(f, c.items)|, c.name, Stored(f, c.items), c.items != [], c.close, y);
  }

  /** What follows the name and its separator. */
  function BodyText(f: Form, c: Call): string {
    RenderItems(f, c.items) + (c.close + f.toolEnd)
  }

  lemma RenderCallSplit(f: Form, c: Call, y: string)
    ensures RenderCall(f, c) + y
         == c.gap + (f.toolStart + (c.name + c.lead + f.toolSep + (RenderItems(f, c.items) + (c.close + (f.toolEnd + y)))))
    ensures |RenderCall(f, c)| == |c.gap| + |f.toolStart| + |c.name| + |c.lead| + |f.toolSep| + |RenderItems(f, c.items)| + |c.close| + |f.toolEnd|
    ensures BodyText(f, c) + y == RenderItems(f, c.items) + (c.close + (f.toolEnd + y))
  {
    hide RenderItems;
    var i, e, n := RenderItems(f, c.items), c.close + f.toolEnd, c.name + c.lead + f.toolSep;
    assert e + y == c.close + (f.toolEnd + y);
    assert i + e + y == i + (e + y);
    assert n + (i + e) + y == n + (i + (e + y));
    assert c.gap + (f.toolStart + (n + (i + e))) + y == c.gap + (f.toolStart + (n + (i + e) + y));
  }

  /** Where nothing separates the name from what follows, that is a key or the end of the tool. */
  function FirstTag(f: Form, c: Call): string {
    if c.items == [] then f.toolEnd else f.keyStart
  }

  lemma BodyBegins(f: Form, c: Call, y: string)
    requires SafeForm(f) && SafeCall(f, c) && f.toolSep == []
    ensures FirstTag(f, c) <= BodyText(f, c) + y
  {
    hide SafeItem, SafeName, IsTag;
    if c.items == [] {
      assert BodyText(f, c) + y == f.toolEnd + y;
    } else {
      var p, rest := c.items[0], RenderItems(f, c.items[1..]) + (c.close + f.toolEnd) + y;
      RenderItemsSplit(f, c.items, (c.close + f.toolEnd) + y);
      assert BodyText(f, c) + y == RenderItem(f, p) + (RenderItems(f, c.items[1..]) + (c.close + f.toolEnd + y));
      assert RenderItem(f, p) == f.keyStart + (p.key + f.keyValSep + (p.mid + Sep2(f) + (p.value + f.valEnd)));
    }
  }

  /** The name and what ends it are there. */
  lemma NameAhead(f: Form, input: string, partial: bool, pos: nat, c: Call, t: string)
    requires SafeForm(f) && SafeCall(f, c) && pos <= |input| && input[pos..] == c.name + c.lead + f.toolSep + t
    requires f.toolSep == [] ==> t != [] && (FirstTag(f, c) <= t || (partial && t <= FirstTag(f, c)))
    ensures var m, at := NameMatch(f, input, partial, pos), pos + |c.name| + |c.lead| + |f.toolSep|;
            && m.Some? && Strip(m.value.prelude) == c.name && FromName(f, m.value) == at
            && at <= |input| && input[at..] == t
  {
    hide NameMatch, Contains, IsTag, Strip, SafeItem, AllSpace;
    var full := c.name + c.lead;
    StripFull(c.name, c.lead);
    if f.toolSep != [] {
      NameRead(f, input, partial, pos, full, t);
    } else {
      assert full + [] + t == full + t;
      assert input[pos..][|full|..] == t;
      if c.items == [] { EndBehindName(f, input, partial, pos, full, t); } else { KeyBehindName(f, input, partial, pos, full, t); }
    }
  }

  lemma StripFull(name: string, lead: string)
    requires name != [] && Strip(name) == name && AllSpace(lead)
    ensures Strip(name + lead) == name
  {
    hide Strip;
    var pre, post := StripSplits(name);
    StripOf([], name, lead);
    assert [] + name + lead == name + lead;
  }

  /** A call of which the opening tag is there. */
  lemma OpenedCall(f: Form, input: string, partial: bool, pos: nat, gap: string, y: string)
    requires SafeForm(f) && AllSpace(gap) && pos <= |input| && input[pos..] == gap + (f.toolStart + y)
    ensures var at := pos + |gap| + |f.toolStart|;
            && at <= |input| && input[at..] == y
            && OneTool(f, input, partial, pos) ==
               match NameMatch(f, input, partial, at)
               case None => Unfinished([])
               case Some(n) => BehindMatch(f, input, partial, n)
  {
    hide FindLiteral, NameMatch, CloseTool, Arguments, Strip, IsTag, Apart;
    LiteralBehind(input, partial, pos, gap, f.toolStart, y);
    SepIsSpace(f);
  }

  lemma SepIsSpace(f: Form)
    requires SafeForm(f)
    ensures AllSpace(f.toolSep) <==> f.toolSep == []
  {
    if f.toolSep != [] { TagIsNotSpace(f.toolSep); }
  }

  /** A whole call is read as such. */
  lemma CallRead(f: Form, input: string, partial: bool, pos: nat, c: Call, y: string)
    requires SafeForm(f) && SafeCall(f, c) && pos <= |input| && input[pos..] == RenderCall(f, c) + y
    ensures var end := pos + |RenderCall(f, c)|;
            && end <= |input| && input[end..] == y
            && OneTool(f, input, partial, pos) == Added(end, FinalCall(f, c))
  {
    hide OneTool, NameMatch, SafeItem, SafeName, IsTag, RenderItems, RenderCall, FinalCall, CloseTool, Arguments, BodyText, Strip, AllSpace;
    var tail, n := RenderItems(f, c.items) + (c.close + (f.toolEnd + y)), c.name + c.lead + f.toolSep;
    RenderCallSplit(f, c, y);
    OpenedCall(f, input, partial, pos, c.gap, n + tail);
    var pos2 := pos + |c.gap| + |f.toolStart|;
    if f.toolSep == [] {
      BodyBegins(f, c, y);
      FirstTagLength(f, c);
    }
    NameAhead(f, input, partial, pos2, c, tail);
    BodyRead(f, input, partial, pos2 + |n|, c, y);
  }

  lemma FirstTagLength(f: Form, c: Call)
    requires SafeForm(f)
    ensures |FirstTag(f, c)| > 0
  {
  }

  /** What is sent of a call whose rendering breaks off after `r`. */
  function CallView(f: Form, c: Call, r: string): seq<ToolCall> {
    var n := |c.gap| + |f.toolStart| + |c.name| + |c.lead|;
    if |r| <= n then []
    else if |r| < n + |f.toolSep| then [ToolCall(c.name, "{", [])]
    else [ToolCall(c.name, ArgsView(f, [], c.items, r[n + |f.toolSep|..]), [])]
  }

  /** The text breaks off in a call, behind the white space before it. */
  lemma CallCut(f: Form, input: string, pos: nat, c: Call)
    requires SafeForm(f) && Streamable(f, c) && pos <= |input| && input[pos..] < RenderCall(f, c) && |c.gap| < |input| - pos
    ensures OneTool(f, input, true, pos) == Unfinished(CallView(f, c, input[pos..]))
  {
    hide FindLiteral, NameMatch, SafeItem, SafeName, RenderItems, ArgsView, BehindMatch, NeedleClash, EndsEarly, Strip, Contains, OneTool, BodyText;
    var r, rest := input[pos..], c.name + c.lead + f.toolSep + BodyText(f, c);
    var k := |c.gap| + |f.toolStart|;
    BodyTextIs(f, c);
    if |r| < k {
      StartCut(input, pos, c.gap, f.toolStart, rest);
      OpeningCut(f, input, pos, c);
    } else {
      BehindGap(r, c.gap, f.toolStart, rest);
      OpenedCall(f, input, true, pos, c.gap, r[k..]);
      OpenCallCut(f, input, pos + k, c);
      var n := |c.name| + |c.lead| + |f.toolSep|;
      assert |r| >= k + n ==> r[k..][n..] == r[k + n..];
    }
  }

  lemma BodyTextIs(f: Form, c: Call)
    ensures RenderCall(f, c) == c.gap + (f.toolStart + (c.name + c.lead + f.toolSep + BodyText(f, c)))
  {
  }

  lemma OpeningCut(f: Form, input: string, pos: nat, c: Call)
    requires SafeForm(f) && Streamable(f, c) && pos <= |input|
    requires FindLiteral(input, true, pos, f.toolStart) == Some(Match(c.gap, pos + |c.gap|, |input|))
    ensures OneTool(f, input, true, pos) == Unfinished([])
  {
    hide FindLiteral, NameMatch, SafeItem, SafeName, Arguments, CloseTool, NeedleClash, EndsEarly, Strip, Contains;
    assert input[|input|..] == [] <= c.name + c.lead;
    SepIsSpace(f);
    NoNameNoCall(f, input, |input|, c);
  }

  /** The text breaks off behind the opening of a call. */
  lemma OpenCallCut(f: Form, input: string, pos: nat, c: Call)
    requires SafeForm(f) && Streamable(f, c) && pos <= |input|
    requires input[pos..] < c.name + c.lead + f.toolSep + BodyText(f, c)
    ensures var r, n := input[pos..], |c.name| + |c.lead| + |f.toolSep|;
            var m := NameMatch(f, input, true, pos);
            if |r| <= |c.name| + |c.lead| then m.Some? ==> BehindMatch(f, input, true, m.value) == Unfinished([])
            else
              m.Some? && BehindMatch(f, input, true, m.value)
                         == Unfinished(if |r| < n then [ToolCall(c.name, "{", [])] else [ToolCall(c.name, ArgsView(f, [], c.items, r[n..]), [])])
  {
    hide FindLiteral, NameMatch, SafeItem, SafeName, IsTag, RenderItems, ArgsView, BehindMatch, AllSpace, NeedleClash, EndsEarly, Clear, BodyText, Strip;
    var r, full := input[pos..], c.name + c.lead;
    var head := full + f.toolSep;
    if |r| <= |full| {
      assert r <= full by { assert r == (head + BodyText(f, c))[..|r|] == full[..|r|]; }
      NoNameNoCall(f, input, pos, c);
    } else if |r| < |head| {
      ShorterPrefix(r, head, BodyText(f, c));
      InSeparator(f, input, pos, c);
    } else {
      SplitPrefix(r, head, BodyText(f, c));
      InBody(f, input, pos, c, r[|head|..]);
    }
  }

  lemma InSeparator(f: Form, input: string, pos: nat, c: Call)
    requires SafeForm(f) && SafeCall(f, c) && pos <= |input|
    requires |c.name + c.lead| < |input| - pos && input[pos..] < c.name + c.lead + f.toolSep
    ensures var m := NameMatch(f, input, true, pos);
            m.Some? && BehindMatch(f, input, true, m.value) == Unfinished([ToolCall(c.name, "{", [])])
  {
    hide FindLiteral, NameMatch, SafeItem, IsTag, Arguments, CloseTool, Strip, AllSpace, Contains;
    var r, full := input[pos..], c.name + c.lead;
    SplitPrefix(r, full, f.toolSep);
    var j := |r| - |full|;
    assert r[|full|..] == f.toolSep[..j];
    NameSepCut(f, input, pos, full, j);
    StripFull(c.name, c.lead);
    NothingLeft(f, input, c.name, [], false);
    assert DumpOpen([]) == "{";
  }

  lemma InFirstTag(f: Form, c: Call, t: string)
    requires SafeForm(f) && SafeCall(f, c) && f.toolSep == [] && t < BodyText(f, c)
    ensures FirstTag(f, c) <= t || t <= FirstTag(f, c)
  {
    hide SafeForm, SafeCall, BodyText, FirstTag;
    assert BodyText(f, c) + [] == BodyText(f, c);
    BodyBegins(f, c, []);
    PrefixesOfOne(FirstTag(f, c), t, BodyText(f, c));
  }

  lemma InBody(f: Form, input: string, pos: nat, c: Call, t: string)
    requires SafeForm(f) && SafeCall(f, c) && !NeedleClash(f, c.items) && pos <= |input|
    requires input[pos..] == c.name + c.lead + f.toolSep + t && t < BodyText(f, c) && (f.toolSep == [] ==> t != [])
    ensures var m := NameMatch(f, input, true, pos);
            m.Some? && BehindMatch(f, input, true, m.value) == Unfinished([ToolCall(c.name, ArgsView(f, [], c.items, t), [])])
  {
    hide FindLiteral, NameMatch, SafeItem, SafeName, SafeForm, RenderItems, ArgsView, Arguments, CloseTool, AllSpace, NeedleClash, Clear, Strip, Fresh, FirstTag, DistinctKeys;
    NoKeysYet(f, c);
    if f.toolSep == [] {
      InFirstTag(f, c, t);
    }
    NameAhead(f, input, true, pos, c, t);
    var at := pos + |c.name| + |c.lead| + |f.toolSep|;
    ArgumentsCut(f, input, at, c.name, [], c.items, false, c.close);
  }
}

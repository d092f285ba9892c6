/** Exactly when the calls shown grow as a rendering arrives. */
module XmlExact {
  import opened Text
  import opened ChatMessage
  import opened ChatParser
  import opened Utf8
  import opened JsonString
  import opened XmlToolCall
  import opened XmlRendering
  import opened XmlStreaming
  import opened XmlRun
  import opened XmlGrowth

  // ----- Names that seem to end early

  lemma EarlyName(f: Form, name: string, lead: string, n: nat)
    requires SafeForm(f) && name != [] && Strip(name) == name && AllSpace(lead) && EndsEarlyAt(f, name + lead, n)
    ensures var short := Strip((name + lead)[..EarlyEnd(f, (name + lead)[..n]).value]); short != [] && short != name
  {
    hide Strip, IsTag, HoldBack, EmptyOrTag, Apart;
    var full := name + lead;
    var i := EarlyEnd(f, full[..n]).value;
    SeemsTag(f, full, n);
    assert full[..n][i] == full[i];
    SpacesInLead(name, lead, i);
    assert full[..i] == name[..i];
    var pre, post := StripSplits(name);
    var p, q := StripSplits(name[..i]);
    assert !IsSpace(name[..i][0]);
  }

  lemma SpacesInLead(name: string, lead: string, i: nat)
    requires AllSpace(lead) && i < |name + lead| && !IsSpace((name + lead)[i])
    ensures i < |name|
  {
    var full := name + lead;
    assert full[|name|..] == lead;
    assert forall k :: |name| <= k < |full| ==> full[k] == lead[k - |name|];
  }

  /** Where a name seems to end, the character is that of a tag, and no space. */
  lemma SeemsTag(f: Form, full: string, n: nat)
    requires SafeForm(f) && EndsEarlyAt(f, full, n)
    ensures var e := EarlyEnd(f, full[..n]).value;
            && e < n && (full[..n][e] == NameEnder(f)[0] || full[..n][e] == f.toolEnd[0]) && !IsSpace(full[..n][e])
  {
    hide HoldBack;
    HoldIn(full[..n], NameEnder(f));
    HoldIn(full[..n], f.toolEnd);
  }

  /** The call is shown under the part of its name that is there. */
  lemma EarlyTool(f: Form, input: string, pos: nat, c: Call, n: nat)
    requires SafeForm(f) && SafeCall(f, c) && EndsEarlyAt(f, c.name + c.lead, n)
    requires pos <= |input| && input[pos..] == c.gap + (f.toolStart + (c.name + c.lead)[..n])
    ensures var full := c.name + c.lead;
            OneTool(f, input, true, pos) == Unfinished([ToolCall(Strip(full[..EarlyEnd(f, full[..n]).value]), "{", [])])
  {
    hide FindLiteral, NameMatch, Contains, Strip, CloseTool, Arguments, IsTag, SafeItem, OneTool, EarlyEnd, Apart, EmptyOrTag;
    var full := c.name + c.lead;
    OpenedCall(f, input, true, pos, c.gap, full[..n]);
    var at := pos + |c.gap| + |f.toolStart|;
    NameCut(f, input, at, full, n);
    var e := EarlyEnd(f, full[..n]).value;
    EarlyName(f, c.name, c.lead, n);
    var short := Strip(full[..e]);
    NothingDumped();
    if f.toolSep == [] {
      assert input[at + e..] == input[at..][e..];
      SeemingEnd(f, input, at + e, full, n, e, short);
    } else {
      NothingLeft(f, input, short, [], false);
    }
  }

  /** Behind its first character the name has none that begins a delimiter. */
  predicate PlainName(f: Form, name: string)
    requires NameEnder(f) != [] && f.toolEnd != []
  {
    forall i :: 1 <= i < |name| ==> name[i] != NameEnder(f)[0] && name[i] != f.toolEnd[0]
  }

  /** Where a tool's end begins in what ends a name at most at its beginning, the characters of a name tell. */
  lemma PlainExact(f: Form, c: Call)
    requires SafeForm(f) && SafeCall(f, c) && EndIsForeign(f)
    ensures EndsEarly(f, c) <==> !PlainName(f, c.name)
  {
    hide HoldBack, SafeItem, Contains, Strip;
    var full := c.name + c.lead;
    if n: nat :| EndsEarlyAt(f, full, n) {
      SeemsTag(f, full, n);
      var e := EarlyEnd(f, full[..n]).value;
      assert full[e] == full[..n][e];
      SpacesInLead(c.name, c.lead, e);
      assert c.name[e] == full[e];
    }
    if i :| 1 <= i < |c.name| && (c.name[i] == NameEnder(f)[0] || c.name[i] == f.toolEnd[0]) {
      var r := full[..i + 1];
      assert r[|r| - 1] == c.name[i];
      if c.name[i] == NameEnder(f)[0] {
        HoldsLast(r, NameEnder(f));
      } else {
        ForeignHolds(r, NameEnder(f));
        HoldsLast(r, f.toolEnd);
      }
      assert EndsEarlyAt(f, full, i + 1);
    }
  }

  lemma HoldsLast(r: string, lit: string)
    requires IsTag(lit) && r != [] && r[|r| - 1] == lit[0]
    ensures HoldBack(r, lit, 0) == |r| - 1
  {
    assert r[|r| - 1..] == lit[..1];
    assert HoldsAt(r, lit, |r| - 1);
    PartialStopLeast(r, lit, 0);
    HoldUnique(r, lit, HoldBack(r, lit, 0), |r| - 1);
  }

  lemma ForeignHolds(r: string, lit: string)
    requires r != [] && r[|r| - 1] !in lit
    ensures HoldBack(r, lit, 0) == |r|
  {
    PartialStopLeast(r, lit, 0);
    var h := HoldBack(r, lit, 0);
    if h < |r| {
      LastIsIn(r, lit, h);
    }
  }

  lemma LastIsIn(r: string, lit: string, h: nat)
    requires HoldsAt(r, lit, h)
    ensures r[|r| - 1] in lit
  {
    assert r[h..][|r| - 1 - h] == r[|r| - 1] == lit[|r| - 1 - h];
  }

  // ----- Keys that are mistaken for earlier ones

  lemma PairsSnoc(args: Args, p: (string, string))
    ensures |Pairs(args + [p])| == |Pairs(args)| + |Pair(p)| + (if args == [] then 0 else 1)
  {
    hide Pair;
    var all := args + [p];
    assert all[..|args|] == args && all[|args|] == p;
  }

  lemma EmptyIsShorter(key: string, v: string)
    ensures |Pair((key, []))| <= |Pair((key, v))|
  {
    hide Escape;
    EscapeNothing();
  }

  lemma PutLength(args: Args, key: string, v: string)
    requires HasKey(args, key)
    ensures |Put(args, key, v)| == |args|
  {
    if args[0].0 != key {
      var i :| 0 <= i < |args| && args[i].0 == key;
      assert args[1..][i - 1].0 == key;
      PutLength(args[1..], key, v);
    }
  }

  lemma PutFront(args: Args, key: string, v: string, p: (string, string))
    ensures Put(args + [p], key, v) == if HasKey(args, key) then Put(args, key, v) + [p]
                                       else if p.0 == key then args + [(key, v)] else args + [p] + [(key, v)]
  {
    var all := args + [p];
    if args == [] {
      assert all == [p];
      assert Put([], key, v) == [(key, v)];
    } else {
      assert all[0] == args[0] && all[1..] == args[1..] + [p];
      PutFront(args[1..], key, v, p);
      if args[0].0 != key {
        if HasKey(args, key) {
          var i :| 0 <= i < |args| && args[i].0 == key;
          assert args[1..][i - 1].0 == key;
        } else {
          assert forall i :: 0 <= i < |args[1..]| ==> args[1..][i] == args[i + 1];
          assert [args[0]] + args[1..] == args;
        }
      }
    }
  }

  /** Emptying the value of a stored key does not lengthen the dump. */
  lemma {:induction false} PutShrinks(args: Args, key: string)
    requires HasKey(args, key)
    ensures |Pairs(Put(args, key, []))| <= |Pairs(args)|
    decreases |args|
  {
    hide Pairs, Pair, Put;
    var init, p := args[..|args| - 1], args[|args| - 1];
    assert args == init + [p];
    PutFront(init, key, [], p);
    PairsSnoc(init, p);
    if HasKey(init, key) {
      PutShrinks(init, key);
      PutLength(init, key, []);
      PairsSnoc(Put(init, key, []), p);
    } else {
      assert p.0 == key;
      EmptyIsShorter(key, p.1);
      PairsSnoc(init, (key, []));
    }
  }

  /** What is then sent is shorter than what was there, or nothing. */
  lemma ClashShort(name: string, args: Args, key: string)
    requires HasKey(args, key) && name != []
    ensures var calls := PartialCall(name, Put(args, key, []));
            calls == [] || (|calls| == 1 && |calls[0].arguments| < |DumpOpen(args)|)
  {
    hide Pairs, Put, HasKey;
    PutShrinks(args, key);
    CutIsShorter(Dump(Put(args, key, [])));
  }

  lemma CutIsShorter(s: string)
    ensures PartialJson(s).Some? ==> |PartialJson(s).value| + |NEEDLE| <= |s|
  {
  }

  lemma ClashTurn(f: Form, input: string, pos: nat, name: string, args: Args, p: Item, n: nat)
    requires SafeForm(f) && SafeItem(f, p) && n < |p.key + f.keyValSep|
    requires pos <= |input| && input[pos..] == p.gap + (f.keyStart + (p.key + f.keyValSep)[..n])
    ensures OneArg(f, input, true, pos, name, args) == CutOff(PartialCall(name, Put(args, ShownKey(f, p.key, n) + NEEDLE, [])))
  {
    hide FindLiteral, IsTag, Contains, Seen, KeyTurn, PartialCall, Put;
    var r := (p.key + f.keyValSep)[..n];
    LiteralBehind(input, true, pos, p.gap, f.keyStart, r);
    KeyTurnCut(f, input, pos + |p.gap| + |f.keyStart|, name, args, p);
  }

  lemma {:induction false} StoredHas(f: Form, items: seq<Item>, i: nat)
    requires i < |items|
    ensures HasKey(Stored(f, items), items[i].key)
  {
    hide Trimmed;
    var st := Stored(f, items);
    if i == 0 {
      assert st[0].0 == items[0].key;
    } else {
      StoredHas(f, items[1..], i - 1);
      var k :| 0 <= k < |Stored(f, items[1..])| && Stored(f, items[1..])[k].0 == items[i].key;
      assert st[k + 1] == Stored(f, items[1..])[k];
    }
  }

  lemma FirstItems(f: Form, c: Call, j: nat)
    requires SafeForm(f) && SafeCall(f, c) && j <= |c.items|
    ensures (forall p <- c.items[..j] :: SafeItem(f, p)) && Fresh([], c.items[..j])
  {
    hide SafeItem, SafeName;
    forall p | p in c.items[..j]
      ensures SafeItem(f, p)
    {
      assert p in c.items;
    }
  }

  /** The call up to its pair `j`. */
  function UpTo(f: Form, c: Call, j: nat): string
    requires j <= |c.items|
  {
    c.gap + (f.toolStart + (c.name + c.lead + f.toolSep + RenderItems(f, c.items[..j])))
  }

  lemma BehindName(f: Form, input: string, partial: bool, pos: nat, c: Call, y: string)
    requires SafeForm(f) && SafeCall(f, c) && pos <= |input|
    requires input[pos..] == c.gap + (f.toolStart + (c.name + c.lead + f.toolSep + y))
    requires f.toolSep == [] ==> FirstTag(f, c) <= y
    ensures var at := pos + |c.gap| + |f.toolStart| + |c.name| + |c.lead| + |f.toolSep|;
            && at <= |input| && input[at..] == y
            && OneTool(f, input, partial, pos) == CloseTool(f, input, partial, c.name, Arguments(f, input, partial, at, c.name, [], false))
  {
    hide FindLiteral, NameMatch, CloseTool, Arguments, SafeItem, SafeName, IsTag, OneTool, Contains, AllSpace, Strip, DistinctKeys, FirstTag;
    OpenedCall(f, input, partial, pos, c.gap, c.name + c.lead + f.toolSep + y);
    FirstTagLength(f, c);
    NameAhead(f, input, partial, pos + |c.gap| + |f.toolStart|, c, y);
  }

  lemma UpToText(f: Form, c: Call, j: nat, y: string)
    requires j <= |c.items|
    ensures UpTo(f, c, j) + y == c.gap + (f.toolStart + (c.name + c.lead + f.toolSep + (RenderItems(f, c.items[..j]) + y)))
    ensures |UpTo(f, c, j)| == |c.gap| + |f.toolStart| + |c.name| + |c.lead| + |f.toolSep| + |RenderItems(f, c.items[..j])|
  {
    hide RenderItems;
    var n, i := c.name + c.lead + f.toolSep, RenderItems(f, c.items[..j]);
    assert n + i + y == n + (i + y);
    assert f.toolStart + (n + i) + y == f.toolStart + (n + i + y);
    assert c.gap + (f.toolStart + (n + i)) + y == c.gap + (f.toolStart + (n + i) + y);
  }

  /** The first pairs begin with a key where nothing else can come behind the name. */
  lemma FirstPairsBegin(f: Form, c: Call, j: nat, y: string)
    requires SafeForm(f) && SafeCall(f, c) && f.toolSep == [] && 0 < j <= |c.items|
    ensures FirstTag(f, c) <= RenderItems(f, c.items[..j]) + y
  {
    hide SafeItem, SafeName, IsTag;
    var p, items := c.items[0], c.items[..j];
    RenderItemsSplit(f, items, y);
    assert RenderItem(f, p) == f.keyStart + (p.key + f.keyValSep + (p.mid + Sep2(f) + (p.value + f.valEnd)));
  }

  /** Behind the name and the first pairs of a call. */
  lemma InArguments(f: Form, input: string, partial: bool, pos: nat, c: Call, j: nat, y: string)
    requires SafeForm(f) && SafeCall(f, c) && j <= |c.items| && pos <= |input| && input[pos..] == UpTo(f, c, j) + y
    requires j == 0 && f.toolSep == [] ==> FirstTag(f, c) <= y
    ensures var at, args := pos + |UpTo(f, c, j)|, Stored(f, c.items[..j]);
            && at <= |input| && input[at..] == y
            && OneTool(f, input, partial, pos) == CloseTool(f, input, partial, c.name, Arguments(f, input, partial, at, c.name, args, j > 0))
  {
    hide CloseTool, Arguments, SafeItem, RenderItems, Stored, SafeForm, OneTool, UpTo, SafeCall, Fresh, FirstTag;
    var items := c.items[..j];
    var body := RenderItems(f, items) + y;
    UpToText(f, c, j, y);
    if f.toolSep == [] && j > 0 {
      FirstPairsBegin(f, c, j, y);
    }
    if j == 0 {
      NoPairs(f, items, y);
    }
    BehindName(f, input, partial, pos, c, body);
    FirstItems(f, c, j);
    var at := pos + |c.gap| + |f.toolStart| + |c.name| + |c.lead| + |f.toolSep|;
    ArgumentsReach(f, input, partial, at, c.name, [], items, false, y);
    assert [] + Stored(f, items) == Stored(f, items);
  }

  lemma NoPairs(f: Form, items: seq<Item>, y: string)
    requires items == []
    ensures RenderItems(f, items) + y == y
  {
  }

  /** Before pair `j` the call is shown with the pairs before it. */
  lemma BeforePair(f: Form, input: string, pos: nat, c: Call, j: nat)
    requires SafeForm(f) && SafeCall(f, c) && 0 < j <= |c.items| && pos <= |input| && input[pos..] == UpTo(f, c, j)
    ensures OneTool(f, input, true, pos) == Unfinished([ToolCall(c.name, DumpOpen(Stored(f, c.items[..j])), [])])
  {
    hide CloseTool, Arguments, SafeItem, Stored, IsTag, OneTool, DumpOpen, UpTo, Strip, Contains;
    assert UpTo(f, c, j) + [] == UpTo(f, c, j);
    InArguments(f, input, true, pos, c, j, []);
    NothingLeft(f, input, c.name, Stored(f, c.items[..j]), true);
  }

  /** In its key, which clashes, less or nothing is shown. */
  lemma InClash(f: Form, input: string, pos: nat, c: Call, i: nat, j: nat, n: nat) returns (calls: seq<ToolCall>)
    requires SafeForm(f) && SafeCall(f, c) && Clash(f, c.items, i, j, n) && pos <= |input|
    requires var p := c.items[j]; input[pos..] == UpTo(f, c, j) + (p.gap + (f.keyStart + (p.key + f.keyValSep)[..n]))
    ensures OneTool(f, input, true, pos) == Unfinished(calls)
    ensures calls == PartialCall(c.name, Put(Stored(f, c.items[..j]), ShownKey(f, c.items[j].key, n) + NEEDLE, []))
    ensures calls == [] || (|calls| == 1 && |calls[0].arguments| < |DumpOpen(Stored(f, c.items[..j]))|)
  {
    hide SafeItem, Stored, IsTag, OneTool, DumpOpen, UpTo, Strip, Contains, ShownKey, OneArg, PartialCall, HasKey, FindLiteral;
    var p, args := c.items[j], Stored(f, c.items[..j]);
    var y := p.gap + (f.keyStart + (p.key + f.keyValSep)[..n]);
    InArguments(f, input, true, pos, c, j, y);
    var at := pos + |UpTo(f, c, j)|;
    assert p in c.items;
    ClashTurn(f, input, at, c.name, args, p, n);
    StoredHas(f, c.items[..j], i);
    assert c.items[..j][i] == c.items[i];
    var key := ShownKey(f, p.key, n) + NEEDLE;
    calls := PartialCall(c.name, Put(args, key, []));
    ClashShort(c.name, args, key);
  }

  // ----- Text where the second separator should be

  /** A pair with the text `x` between its separators; `z` is the second separator and what follows, or its beginning. */
  function BrokenItem(f: Form, p: Item, x: string, z: string): string {
    p.gap + (f.keyStart + (p.key + f.keyValSep + (x + z)))
  }

  /** `z` begins with the second separator, or is cut off in it. */
  predicate SecondComes(f: Form, z: string, partial: bool) {
    f.keyValSep2.Some? && (Sep2(f) <= z || (partial && z != [] && z <= Sep2(f)))
  }

  lemma BrokenTurn(f: Form, input: string, partial: bool, pos: nat, name: string, args: Args, p: Item, x: string, z: string)
    requires SafeForm(f) && SafeItem(f, p) && SecondComes(f, z, partial) && !AllSpace(x) && !Contains(x, Sep2(f))
    requires pos <= |input| && input[pos..] == BrokenItem(f, p, x, z)
    ensures OneArg(f, input, partial, pos, name, args) == Broken
  {
    hide FindLiteral, IsTag, Contains, KeyTurn, ValueTurn, WellFormed, Apart, EmptyOrTag, PartialCall, Put, AllSpace;
    LiteralBehind(input, partial, pos, p.gap, f.keyStart, p.key + f.keyValSep + (x + z));
    BrokenKey(f, input, partial, pos + |p.gap| + |f.keyStart|, name, args, p, x, z);
  }

  lemma BrokenKey(f: Form, input: string, partial: bool, pos: nat, name: string, args: Args, p: Item, x: string, z: string)
    requires SafeForm(f) && SafeItem(f, p) && SecondComes(f, z, partial) && !AllSpace(x) && !Contains(x, Sep2(f))
    requires pos <= |input| && input[pos..] == p.key + f.keyValSep + (x + z)
    ensures KeyTurn(f, input, partial, pos, name, args) == Broken
  {
    hide FindLiteral, IsTag, Contains, ValueTurn, WellFormed, Apart, EmptyOrTag, PartialCall, Put, AllSpace;
    LiteralAhead(input, partial, pos, p.key, f.keyValSep, x + z);
    BrokenSecond(f, input, partial, pos + |p.key| + |f.keyValSep|, name, args, p.key, x, z);
  }

  lemma BrokenSecond(f: Form, input: string, partial: bool, pos: nat, name: string, args: Args, key: string, x: string, z: string)
    requires SafeForm(f) && SecondComes(f, z, partial) && !AllSpace(x) && !Contains(x, Sep2(f))
    requires pos <= |input| && input[pos..] == x + z
    ensures SecondSepTurn(f, input, partial, pos, name, args, key) == Broken
  {
    hide FindLiteral, IsTag, Contains, ValueTurn, Apart, PartialCall, Put, AllSpace;
    var sep := Sep2(f);
    if sep <= z {
      var y := z[|sep|..];
      assert z == sep + y && x + z == x + sep + y;
      LiteralAhead(input, partial, pos, x, sep, y);
    } else {
      ProperPrefix(z, sep);
      assert z == sep[..|z|];
      FoundCut(input, pos, x, sep, |z|);
    }
  }

  lemma BrokenCall(f: Form, input: string, partial: bool, pos: nat, c: Call, j: nat, x: string, z: string)
    requires SafeForm(f) && SafeCall(f, c) && j < |c.items|
    requires SecondComes(f, z, partial) && !AllSpace(x) && !Contains(x, Sep2(f))
    requires pos <= |input| && input[pos..] == UpTo(f, c, j) + BrokenItem(f, c.items[j], x, z)
    ensures OneTool(f, input, partial, pos) == SyntaxError
  {
    hide SafeName, SafeForm, OneTool, UpTo, Stored, OneArg, IsTag, SafeItem, Contains, AllSpace;
    var p := c.items[j];
    var y := BrokenItem(f, p, x, z);
    assert SafeItem(f, p) by { ItemIsSafe(f, c, j); }
    if j == 0 && f.toolSep == [] {
      assert [] + (f.keyStart + (p.key + f.keyValSep + (x + z))) == f.keyStart + (p.key + f.keyValSep + (x + z));
    }
    InArguments(f, input, partial, pos, c, j, y);
    var at := pos + |UpTo(f, c, j)|;
    BrokenTurn(f, input, partial, at, c.name, Stored(f, c.items[..j]), p, x, z);
    assert f.Valid() by { FormIsValid(f); }
  }

  lemma ItemIsSafe(f: Form, c: Call, j: nat)
    requires SafeForm(f) && SafeCall(f, c) && j < |c.items|
    ensures SafeItem(f, c.items[j])
  {
    hide SafeItem, SafeName, SafeForm;
  }

  lemma FormIsValid(f: Form)
    requires SafeForm(f)
    ensures f.Valid()
  {
  }

  lemma BrokenTool(f: Form, input: string, partial: bool, start: nat, pos: nat, done: seq<ToolCall>, recovery: bool)
    requires f.Valid() && start <= pos <= |input| && OneTool(f, input, partial, pos) == SyntaxError
    ensures Tools(f, input, partial, start, pos, done, recovery).exit == ThrewSyntax
  {
    hide OneTool;
  }

  /** Main result, rollback: text between the separators of a pair, wherever that pair stands, makes the parser answer false,
      with the cursor and the calls as they were, however many calls it has read before. */
  lemma TextBeforeSecond(f: Form, pre: string, s: Scope, q: nat, j: nat, x: string, z: string, partial: bool, done: seq<ToolCall>)
    requires SafeScope(f, s) && q < |s.calls| && j < |s.calls[q].items|
    requires SecondComes(f, z, partial) && !AllSpace(x) && !Contains(x, Sep2(f))
    ensures f.Valid()
    ensures var c := s.calls[q];
            var broken := UpTo(f, c, j) + BrokenItem(f, c.items[j], x, z);
            TryXml(f, pre + (s.gap + (f.scopeStart + (RenderCalls(f, s.calls[..q]) + broken))), partial, |pre|, done)
            == Out(Returned(false), |pre|, done)
  {
    hide SafeCall, RenderCalls, Finals, ParseXml, SafeForm, AllSpace, OneTool, UpTo, BrokenItem, SecondComes, Contains, Tools;
    var c := s.calls[q];
    var broken := UpTo(f, c, j) + BrokenItem(f, c.items[j], x, z);
    var before := RenderCalls(f, s.calls[..q]);
    var input := pre + (s.gap + (f.scopeStart + (before + broken)));
    FormIsValid(f);
    ScopeOpened(f, pre, s.gap, before + broken, partial, done);
    FirstCalls(f, s, q);
    var at := |pre| + |s.gap| + |f.scopeStart|;
    ToolsReach(f, input, partial, |pre|, at, done, true, s.calls[..q], broken);
    BrokenCall(f, input, partial, at + |before|, c, j, x, z);
    BrokenTool(f, input, partial, |pre|, at + |before|, done + Finals(f, s.calls[..q]), q == 0);
  }

  // ----- Text where a closing tag should be

  /** Behind the arguments comes text that is neither a key nor the closing tag. */
  lemma TextEndsTool(f: Form, input: string, partial: bool, pos: nat, name: string, args: Args, sawKey: bool, x: string, z: string)
    requires SafeForm(f) && pos <= |input| && input[pos..] == x + f.toolEnd + z
    requires !AllSpace(x) && !Contains(x, f.toolEnd) && NotAhead(f.keyStart, x + f.toolEnd + z, partial)
    ensures CloseTool(f, input, partial, name, Arguments(f, input, partial, pos, name, args, sawKey)) == Rejected(sawKey)
  {
    hide FindLiteral, IsTag, Contains, KeyTurn, AllSpace, NotAhead, EmptyOrTag, Apart, NameEnder;
    NotAheadFinds(input, partial, pos, f.keyStart);
    LiteralAhead(input, partial, pos, x, f.toolEnd, z);
  }

  lemma UnclosedCall(f: Form, input: string, partial: bool, pos: nat, c: Call, x: string, z: string)
    requires SafeForm(f) && SafeCall(f, c) && (f.toolSep == [] ==> c.items != []) && pos <= |input|
    requires !AllSpace(x) && !Contains(x, f.toolEnd) && NotAhead(f.keyStart, x + f.toolEnd + z, partial)
    requires input[pos..] == UpTo(f, c, |c.items|) + (x + f.toolEnd + z)
    ensures OneTool(f, input, partial, pos) == Rejected(c.items != [])
  {
    hide SafeCall, SafeForm, AllSpace, OneTool, UpTo, NotAhead, Contains, CloseTool, Arguments, Stored;
    var n := |c.items|;
    InArguments(f, input, partial, pos, c, n, x + f.toolEnd + z);
    TextEndsTool(f, input, partial, pos + |UpTo(f, c, n)|, c.name, Stored(f, c.items[..n]), n > 0, x, z);
  }

  lemma RejectedTool(f: Form, input: string, partial: bool, start: nat, pos: nat, done: seq<ToolCall>, recovery: bool)
    requires f.Valid() && start <= pos <= |input| && OneTool(f, input, partial, pos).Rejected?
    ensures var r := Tools(f, input, partial, start, pos, done, recovery);
            r.exit == ThrewSyntax || (recovery && r == Out(Returned(false), start, done))
  {
    hide OneTool;
  }

  /** Main result, rollback: text between the arguments of a call and its closing tag makes the parser answer false, with the
      cursor and the calls as they were. (Behind a name that nothing ends, such text belongs to the name.) */
  lemma TextBeforeClose(f: Form, pre: string, s: Scope, q: nat, x: string, z: string, partial: bool, done: seq<ToolCall>)
    requires SafeScope(f, s) && q < |s.calls| && (f.toolSep == [] ==> s.calls[q].items != [])
    requires !AllSpace(x) && !Contains(x, f.toolEnd) && NotAhead(f.keyStart, x + f.toolEnd + z, partial)
    ensures f.Valid()
    ensures var c := s.calls[q];
            var broken := UpTo(f, c, |c.items|) + (x + f.toolEnd + z);
            TryXml(f, pre + (s.gap + (f.scopeStart + (RenderCalls(f, s.calls[..q]) + broken))), partial, |pre|, done)
            == Out(Returned(false), |pre|, done)
  {
    hide SafeCall, RenderCalls, Finals, ParseXml, SafeForm, AllSpace, OneTool, UpTo, NotAhead, Contains, Tools;
    var c := s.calls[q];
    var broken := UpTo(f, c, |c.items|) + (x + f.toolEnd + z);
    var before := RenderCalls(f, s.calls[..q]);
    var input := pre + (s.gap + (f.scopeStart + (before + broken)));
    FormIsValid(f);
    ScopeOpened(f, pre, s.gap, before + broken, partial, done);
    FirstCalls(f, s, q);
    var at := |pre| + |s.gap| + |f.scopeStart|;
    ToolsReach(f, input, partial, |pre|, at, done, true, s.calls[..q], broken);
    UnclosedCall(f, input, partial, at + |before|, c, x, z);
    RejectedTool(f, input, partial, |pre|, at + |before|, done + Finals(f, s.calls[..q]), q == 0);
    NoFinals(f, s.calls[..q], done);
  }

  lemma NoScopeEnd(f: Form, input: string, partial: bool, start: nat, pos: nat, done: seq<ToolCall>, recovery: bool)
    requires SafeForm(f) && f.scopeEnd != [] && start <= pos <= |input|
    requires NotAhead(f.toolStart, input[pos..], partial) && NotAhead(f.scopeEnd, input[pos..], partial)
    ensures Tools(f, input, partial, start, pos, done, recovery)
         == if AllSpace(input[pos..]) then Out(ThrewPartial, |input|, done) else ReturnError(start, pos, done, recovery)
  {
    hide FindLiteral, IsTag, NotAhead, NameMatch, CloseTool, Arguments, NameEnder, Apart;
    NotAheadFinds(input, partial, pos, f.toolStart);
    NotAheadFinds(input, partial, pos, f.scopeEnd);
    TagIsNotSpace(f.scopeEnd);
    if AllSpace(input[pos..]) {
      BlankFindsNone(input, partial, pos, f.scopeEnd);
      SkipsToEnd(input, pos);
    } else {
      SkipsToText(input, pos);
    }
  }

  lemma SkipsToText(input: string, pos: nat)
    requires pos <= |input| && !AllSpace(input[pos..])
    ensures SkipSpaces(input, pos) < |input|
  {
    hide SkipSpaces;
    SkipsSpaces(input, pos);
    var i :| 0 <= i < |input[pos..]| && !IsSpace(input[pos..][i]);
    assert !IsSpace(input[pos + i]);
  }

  /** Main result: behind complete calls that no closing tag follows, the parser waits if there is nothing but white space, also
      in the final parse; any other text, unless a tool begins there, makes it answer false, with everything as it was. */
  lemma TextBehindCalls(f: Form, pre: string, s: Scope, x: string, partial: bool, done: seq<ToolCall>)
    requires SafeScope(f, s) && f.scopeEnd != [] && NotAhead(f.toolStart, x, partial) && NotAhead(f.scopeEnd, x, partial)
    ensures f.Valid()
    ensures var input := pre + (s.gap + (f.scopeStart + (RenderCalls(f, s.calls) + x)));
            TryXml(f, input, partial, |pre|, done)
            == if AllSpace(x) then Out(ThrewPartial, |input|, done + Finals(f, s.calls)) else Out(Returned(false), |pre|, done)
  {
    hide SafeCall, RenderCalls, Finals, ParseXml, SafeForm, AllSpace, Tools, NotAhead;
    var body := RenderCalls(f, s.calls);
    var input := pre + (s.gap + (f.scopeStart + (body + x)));
    FormIsValid(f);
    ScopeOpened(f, pre, s.gap, body + x, partial, done);
    var at := |pre| + |s.gap| + |f.scopeStart|;
    ToolsReach(f, input, partial, |pre|, at, done, true, s.calls, x);
    NoScopeEnd(f, input, partial, |pre|, at + |body|, done + Finals(f, s.calls), s.calls == []);
    NoFinals(f, s.calls, done);
  }

  lemma NoFinals(f: Form, calls: seq<Call>, done: seq<ToolCall>)
    ensures calls == [] ==> done + Finals(f, calls) == done
  {
  }

  // ----- Cuts in a call of the list

  lemma {:induction false} RenderCallsAt(f: Form, calls: seq<Call>, q: nat)
    requires q < |calls|
    ensures RenderCalls(f, calls) == RenderCalls(f, calls[..q]) + (RenderCall(f, calls[q]) + RenderCalls(f, calls[q + 1..]))
    ensures Finals(f, calls) == Finals(f, calls[..q]) + ([FinalCall(f, calls[q])] + Finals(f, calls[q + 1..]))
    decreases q
  {
    hide RenderCall, FinalCall;
    if q == 0 {
      var x, y := RenderCall(f, calls[0]) + RenderCalls(f, calls[1..]), [FinalCall(f, calls[0])] + Finals(f, calls[1..]);
      assert calls[..0] == [] && [] + x == x && [] + y == y;
    } else {
      var rest := calls[1..];
      RenderCallsAt(f, rest, q - 1);
      assert calls[..q][1..] == rest[..q - 1] && calls[..q][0] == calls[0];
      assert rest[q - 1] == calls[q] && rest[q..] == calls[q + 1..];
      var x, y := RenderCall(f, calls[0]), RenderCalls(f, rest[..q - 1]);
      var z := RenderCall(f, calls[q]) + RenderCalls(f, calls[q + 1..]);
      assert x + (y + z) == x + y + z;
    }
  }

  /** How much of the rendering has arrived when it breaks off after `r` of call `q`. */
  function Place(f: Form, s: Scope, q: nat, r: string): nat
    requires q < |s.calls|
  {
    |s.gap| + |f.scopeStart| + |RenderCalls(f, s.calls[..q])| + |r|
  }

  lemma PlaceText(f: Form, s: Scope, q: nat, r: string)
    requires q < |s.calls| && r < RenderCall(f, s.calls[q])
    ensures Place(f, s, q, r) < |Render(f, s)|
    ensures Render(f, s)[..Place(f, s, q, r)] == s.gap + (f.scopeStart + (RenderCalls(f, s.calls[..q]) + r))
  {
    hide RenderCall, RenderCalls;
    RenderCallsAt(f, s.calls, q);
    TextUpTo(s.gap, f.scopeStart, RenderCalls(f, s.calls[..q]), r, RenderCall(f, s.calls[q]),
             RenderCalls(f, s.calls[q + 1..]), s.close + f.scopeEnd);
  }

  lemma TextUpTo(gap: string, start: string, before: string, r: string, call: string, later: string, end: string)
    requires r < call
    ensures var all, head := gap + (start + (before + call + later + end)), gap + (start + (before + r));
            |head| < |all| && all[..|head|] == head
  {
    var rest := call[|r|..] + later + end;
    assert before + call + later + end == before + r + rest by {
      assert call == r + call[|r|..];
    }
    assert start + (before + r + rest) == start + (before + r) + rest;
    assert gap + (start + (before + r) + rest) == gap + (start + (before + r)) + rest;
  }

  lemma FirstCalls(f: Form, s: Scope, q: nat)
    requires SafeScope(f, s) && q <= |s.calls|
    ensures forall c <- s.calls[..q] :: SafeCall(f, c)
  {
    hide SafeCall;
    forall c | c in s.calls[..q]
      ensures SafeCall(f, c)
    {
      assert c in s.calls;
    }
  }

  /** The parser reaches call `q` with the calls before it. */
  lemma ReachCall(f: Form, pre: string, done: seq<ToolCall>, s: Scope, q: nat, r: string)
    requires SafeScope(f, s) && q < |s.calls| && r < RenderCall(f, s.calls[q])
    ensures Place(f, s, q, r) < |Render(f, s)|
    ensures var input := pre + Render(f, s)[..Place(f, s, q, r)];
            var pos := |input| - |r|;
            && |pre| <= pos && input[pos..] == r
            && ParseXml(f, input, true, |pre|, done) == Tools(f, input, true, |pre|, pos, done + Finals(f, s.calls[..q]), q == 0)
  {
    hide SafeCall, Tools, RenderCalls, Finals, ParseXml, Render, SafeForm, RenderCall, AllSpace;
    PlaceText(f, s, q, r);
    var input := pre + Render(f, s)[..Place(f, s, q, r)];
    ScopeOpened(f, pre, s.gap, RenderCalls(f, s.calls[..q]) + r, true, done);
    FirstCalls(f, s, q);
    ToolsReach(f, input, true, |pre|, |pre| + |s.gap| + |f.scopeStart|, done, true, s.calls[..q], r);
  }

  /** What is shown of call `q` is shown behind the calls before it. */
  lemma ShownInCall(f: Form, pre: string, done: seq<ToolCall>, s: Scope, q: nat, r: string, x: seq<ToolCall>, streaming: bool)
    requires SafeScope(f, s) && q < |s.calls| && r < RenderCall(f, s.calls[q])
    requires Place(f, s, q, r) < |Render(f, s)|
    requires var input := pre + Render(f, s)[..Place(f, s, q, r)]; OneTool(f, input, true, |input| - |r|) == Unfinished(x)
    ensures CallsAt(f, pre, done, s, Place(f, s, q, r), streaming) == done + Finals(f, s.calls[..q]) + x
  {
    hide SafeCall, RenderCalls, Finals, ParseXml, Render, RenderCall, OneTool, Place;
    ReachCall(f, pre, done, s, q, r);
  }

  // ----- When the calls do not grow

  lemma NameChanges(a: seq<ToolCall>, x: ToolCall, t: ToolCall, rest: seq<ToolCall>)
    requires x.name != t.name
    ensures !CallsGrow(a + [x], a + ([t] + rest))
  {
    assert (a + [x])[|a|] == x && (a + ([t] + rest))[|a|] == t;
  }

  lemma ArgumentsShrink(a: seq<ToolCall>, x: ToolCall, y: seq<ToolCall>)
    requires y == [] || (|y| == 1 && |y[0].arguments| < |x.arguments|)
    ensures !CallsGrow(a + [x], a + y)
  {
    assert (a + [x])[|a|] == x;
  }

  ghost predicate AlwaysGrows(f: Form, pre: string, done: seq<ToolCall>, s: Scope, streaming: bool)
    requires f.Valid()
  {
    forall n: nat, n': nat :: n <= n' <= |Render(f, s)| ==>
      CallsGrow(CallsAt(f, pre, done, s, n, streaming), CallsAt(f, pre, done, s, n', streaming))
  }

  lemma EarlyPrefix(f: Form, c: Call, n: nat)
    requires n <= |c.name + c.lead| && f.toolEnd != []
    ensures c.gap + (f.toolStart + (c.name + c.lead)[..n]) < RenderCall(f, c)
  {
    hide BodyText, RenderCall;
    var full := c.name + c.lead;
    var a, b, body := full[..n], full[n..] + f.toolSep, BodyText(f, c);
    BodyTextIs(f, c);
    assert body != [] by { BodyEnds(f, c); }
    assert full + f.toolSep + body == a + (b + body) by { assert full == a + full[n..]; }
    assert c.gap + (f.toolStart + (a + (b + body))) == c.gap + (f.toolStart + a) + (b + body);
  }

  lemma BodyEnds(f: Form, c: Call)
    requires f.toolEnd != []
    ensures BodyText(f, c) != []
  {
    hide RenderItems;
  }

  /** What is shown of a call whose name seems to end. */
  lemma EarlyShown(f: Form, pre: string, done: seq<ToolCall>, s: Scope, q: nat, n: nat, streaming: bool) returns (at: nat, short: string)
    requires SafeScope(f, s) && q < |s.calls| && EndsEarlyAt(f, s.calls[q].name + s.calls[q].lead, n)
    ensures at < |Render(f, s)| && short != s.calls[q].name
    ensures CallsAt(f, pre, done, s, at, streaming) == done + Finals(f, s.calls[..q]) + [ToolCall(short, "{", [])]
  {
    hide SafeItem, Contains, Strip, OneTool, Render, RenderCall, Finals, CallsAt, Place, EarlyEnd, AllSpace, Apart, ParseXml, Tools;
    var c := s.calls[q];
    assert SafeCall(f, c);
    var full := c.name + c.lead;
    var r := c.gap + (f.toolStart + full[..n]);
    EarlyPrefix(f, c, n);
    at := Place(f, s, q, r);
    ReachCall(f, pre, done, s, q, r);
    var input := pre + Render(f, s)[..at];
    EarlyTool(f, input, |input| - |r|, c, n);
    short := Strip(full[..EarlyEnd(f, full[..n]).value]);
    ShownInCall(f, pre, done, s, q, r, [ToolCall(short, "{", [])], streaming);
    EarlyName(f, c.name, c.lead, n);
  }

  lemma AllCallsShown(f: Form, pre: string, done: seq<ToolCall>, s: Scope, q: nat, streaming: bool)
    requires SafeScope(f, s) && q < |s.calls|
    ensures CallsAt(f, pre, done, s, |Render(f, s)|, streaming)
         == done + Finals(f, s.calls[..q]) + ([FinalCall(f, s.calls[q])] + Finals(f, s.calls[q + 1..]))
  {
    hide SafeCall, CallsAt, Render, Finals, FinalCall;
    AllShown(f, pre, done, s, streaming);
    RenderCallsAt(f, s.calls, q);
    var a, b := Finals(f, s.calls[..q]), [FinalCall(f, s.calls[q])] + Finals(f, s.calls[q + 1..]);
    assert done + (a + b) == done + a + b;
  }

  lemma EarlyNameShrinks(f: Form, pre: string, done: seq<ToolCall>, s: Scope, q: nat, n: nat, streaming: bool)
    requires SafeScope(f, s) && q < |s.calls| && EndsEarlyAt(f, s.calls[q].name + s.calls[q].lead, n)
    ensures !AlwaysGrows(f, pre, done, s, streaming)
  {
    hide SafeCall, CallsAt, Render, Finals, CallsGrow;
    var at, short := EarlyShown(f, pre, done, s, q, n, streaming);
    AllCallsShown(f, pre, done, s, q, streaming);
    NameChanges(done + Finals(f, s.calls[..q]), ToolCall(short, "{", []), FinalCall(f, s.calls[q]), Finals(f, s.calls[q + 1..]));
    assert !CallsGrow(CallsAt(f, pre, done, s, at, streaming), CallsAt(f, pre, done, s, |Render(f, s)|, streaming));
  }

  lemma {:induction false} RenderItemsAt(f: Form, items: seq<Item>, j: nat)
    requires j < |items|
    ensures RenderItems(f, items) == RenderItems(f, items[..j]) + (RenderItem(f, items[j]) + RenderItems(f, items[j + 1..]))
    decreases j
  {
    hide RenderItem;
    if j == 0 {
      var x := RenderItem(f, items[0]) + RenderItems(f, items[1..]);
      assert items[..0] == [] && [] + x == x;
    } else {
      var rest := items[1..];
      RenderItemsAt(f, rest, j - 1);
      assert items[..j][1..] == rest[..j - 1] && items[..j][0] == items[0];
      assert rest[j - 1] == items[j] && rest[j..] == items[j + 1..];
      var x, y, z := RenderItem(f, items[0]), RenderItems(f, rest[..j - 1]), RenderItem(f, items[j]) + RenderItems(f, items[j + 1..]);
      assert x + (y + z) == x + y + z;
    }
  }

  /** The text of the call up to and into the key of pair `j`. */
  lemma ClashPrefix(f: Form, c: Call, j: nat, n: nat)
    requires j < |c.items| && n < |c.items[j].key + f.keyValSep|
    ensures var p := c.items[j];
            var y := p.gap + (f.keyStart + (p.key + f.keyValSep)[..n]);
            UpTo(f, c, j) + y < RenderCall(f, c)
  {
    hide RenderItems;
    var p := c.items[j];
    var key := p.key + f.keyValSep;
    var y := p.gap + (f.keyStart + key[..n]);
    RenderItemsAt(f, c.items, j);
    ItemSplits(f, p, n);
    var v, later := key[n..] + (p.mid + Sep2(f) + (p.value + f.valEnd)), RenderItems(f, c.items[j + 1..]);
    CallSplits(c.gap + (f.toolStart + (c.name + c.lead + f.toolSep)), RenderItems(f, c.items[..j]), y, v, later, c.close + f.toolEnd);
  }

  lemma ItemSplits(f: Form, p: Item, n: nat)
    requires n <= |p.key + f.keyValSep|
    ensures var key := p.key + f.keyValSep;
            RenderItem(f, p) == p.gap + (f.keyStart + key[..n]) + (key[n..] + (p.mid + Sep2(f) + (p.value + f.valEnd)))
  {
    var key, v := p.key + f.keyValSep, p.mid + Sep2(f) + (p.value + f.valEnd);
    assert key + v == key[..n] + (key[n..] + v);
    assert f.keyStart + (key[..n] + (key[n..] + v)) == f.keyStart + key[..n] + (key[n..] + v);
  }

  lemma CallSplits(head: string, before: string, y: string, v: string, later: string, end: string)
    requires v != []
    ensures head + before + y < head + (before + (y + v) + later) + end
  {
    assert head + (before + (y + v) + later) + end == head + before + y + (v + later + end);
  }

  lemma PrefixLength(a: string, b: string, w: string)
    requires a + b < w
    ensures a < w
  {
    assert a == (a + b)[..|a|] == w[..|a|];
  }

  function InKey(f: Form, c: Call, j: nat, n: nat): string
    requires j < |c.items| && n < |c.items[j].key + f.keyValSep|
  {
    var p := c.items[j];
    p.gap + (f.keyStart + (p.key + f.keyValSep)[..n])
  }

  /** Before pair `j` the arguments before it are shown. */
  lemma ShownBefore(f: Form, pre: string, done: seq<ToolCall>, s: Scope, q: nat, j: nat, streaming: bool)
    requires SafeScope(f, s) && q < |s.calls| && 0 < j < |s.calls[q].items| && UpTo(f, s.calls[q], j) < RenderCall(f, s.calls[q])
    ensures var c := s.calls[q];
            var n := Place(f, s, q, UpTo(f, c, j));
            && n < |Render(f, s)|
            && CallsAt(f, pre, done, s, n, streaming)
               == done + Finals(f, s.calls[..q]) + [ToolCall(c.name, DumpOpen(Stored(f, c.items[..j])), [])]
  {
    hide SafeItem, SafeName, Render, RenderCall, Finals, CallsAt, OneTool, DumpOpen, UpTo, Stored, SafeForm, Place;
    var c := s.calls[q];
    assert SafeCall(f, c);
    var r := UpTo(f, c, j);
    ReachCall(f, pre, done, s, q, r);
    var input := pre + Render(f, s)[..Place(f, s, q, r)];
    BeforePair(f, input, |input| - |r|, c, j);
    ShownInCall(f, pre, done, s, q, r, [ToolCall(c.name, DumpOpen(Stored(f, c.items[..j])), [])], streaming);
  }

  /** In a key that clashes less is shown, or the call is gone. */
  lemma ShownInClash(f: Form, pre: string, done: seq<ToolCall>, s: Scope, q: nat, i: nat, j: nat, n: nat, streaming: bool)
    returns (y: seq<ToolCall>)
    requires SafeScope(f, s) && q < |s.calls| && Clash(f, s.calls[q].items, i, j, n)
    requires UpTo(f, s.calls[q], j) + InKey(f, s.calls[q], j, n) < RenderCall(f, s.calls[q])
    ensures var c := s.calls[q];
            var at := Place(f, s, q, UpTo(f, c, j) + InKey(f, c, j, n));
            at < |Render(f, s)| && CallsAt(f, pre, done, s, at, streaming) == done + Finals(f, s.calls[..q]) + y
    ensures y == PartialCall(s.calls[q].name, Put(Stored(f, s.calls[q].items[..j]), s.calls[q].items[i].key, []))
    ensures y == [] || (|y| == 1 && |y[0].arguments| < |DumpOpen(Stored(f, s.calls[q].items[..j]))|)
  {
    hide SafeItem, SafeName, Render, RenderCall, Finals, CallsAt, OneTool, DumpOpen, UpTo, Stored, SafeForm, Place, ShownKey, PartialCall, Put;
    var c := s.calls[q];
    assert SafeCall(f, c);
    var r := UpTo(f, c, j) + InKey(f, c, j, n);
    ReachCall(f, pre, done, s, q, r);
    var input := pre + Render(f, s)[..Place(f, s, q, r)];
    y := InClash(f, input, |input| - |r|, c, i, j, n);
    ShownInCall(f, pre, done, s, q, r, y, streaming);
  }

  lemma ClashShrinks(f: Form, pre: string, done: seq<ToolCall>, s: Scope, q: nat, i: nat, j: nat, n: nat, streaming: bool)
    requires SafeScope(f, s) && q < |s.calls| && Clash(f, s.calls[q].items, i, j, n)
    ensures !AlwaysGrows(f, pre, done, s, streaming)
  {
    hide SafeCall, Render, RenderCall, Finals, CallsAt, CallsGrow, DumpOpen, UpTo, InKey, Stored, ShownKey;
    var c := s.calls[q];
    var r, k := UpTo(f, c, j), InKey(f, c, j, n);
    InKeyPrefix(f, c, j, n);
    PrefixLength(r, k, RenderCall(f, c));
    ShownBefore(f, pre, done, s, q, j, streaming);
    var y := ShownInClash(f, pre, done, s, q, i, j, n, streaming);
    ArgumentsShrink(done + Finals(f, s.calls[..q]), ToolCall(c.name, DumpOpen(Stored(f, c.items[..j])), []), y);
    var n0, n1 := Place(f, s, q, r), Place(f, s, q, r + k);
    assert !CallsGrow(CallsAt(f, pre, done, s, n0, streaming), CallsAt(f, pre, done, s, n1, streaming));
  }

  lemma InKeyPrefix(f: Form, c: Call, j: nat, n: nat)
    requires j < |c.items| && n < |c.items[j].key + f.keyValSep|
    ensures UpTo(f, c, j) + InKey(f, c, j, n) < RenderCall(f, c)
  {
    hide UpTo, RenderCall;
    ClashPrefix(f, c, j, n);
  }

  // ----- The theorem

  lemma StreamableGrows(f: Form, pre: string, done: seq<ToolCall>, s: Scope, streaming: bool)
    requires StreamableScope(f, s)
    ensures f.Valid() && AlwaysGrows(f, pre, done, s, streaming)
  {
    hide Streamable, SafeCall, Render, CallsAt, CallsGrow, ShownAt;
    forall n: nat, n': nat | n <= n' <= |Render(f, s)|
      ensures CallsGrow(CallsAt(f, pre, done, s, n, streaming), CallsAt(f, pre, done, s, n', streaming))
    {
      ParsedShows(f, pre, done, s, n, streaming);
      ParsedShows(f, pre, done, s, n', streaming);
      ShownGrows(f, s, n, n');
      CallsGrowBehind(done, ShownAt(f, s, n), ShownAt(f, s, n'));
    }
  }

  /** Main result, exactness: for safe calls the calls shown grow over all cuts of the rendering if and only if no name
      seems to end early and no call has a key that is mistaken for an earlier one. */
  lemma GrowthExact(f: Form, pre: string, done: seq<ToolCall>, s: Scope, streaming: bool)
    requires SafeScope(f, s)
    ensures AlwaysGrows(f, pre, done, s, streaming) <==> forall c <- s.calls :: !EndsEarly(f, c) && !NeedleClash(f, c.items)
    ensures EndIsForeign(f) ==>
              (AlwaysGrows(f, pre, done, s, streaming) <==> forall c <- s.calls :: PlainName(f, c.name) && !NeedleClash(f, c.items))
  {
    hide SafeCall, AlwaysGrows, PlainName, NeedleClash, Clash, EndsEarlyAt, EndsEarly;
    if forall c <- s.calls :: !EndsEarly(f, c) && !NeedleClash(f, c.items) {
      assert forall c <- s.calls :: Streamable(f, c);
      StreamableGrows(f, pre, done, s, streaming);
    } else {
      var c :| c in s.calls && (EndsEarly(f, c) || NeedleClash(f, c.items));
      var q :| 0 <= q < |s.calls| && s.calls[q] == c;
      if EndsEarly(f, c) {
        var n := TheEnd(f, c);
        EarlyNameShrinks(f, pre, done, s, q, n, streaming);
      } else {
        var i, j, n := TheClash(f, c.items);
        ClashShrinks(f, pre, done, s, q, i, j, n, streaming);
      }
    }
    if EndIsForeign(f) {
      forall c <- s.calls
        ensures EndsEarly(f, c) <==> !PlainName(f, c.name)
      {
        PlainExact(f, c);
      }
    }
  }

  lemma TheEnd(f: Form, c: Call) returns (n: nat)
    requires EndsEarly(f, c)
    ensures EndsEarlyAt(f, c.name + c.lead, n)
  {
    n :| EndsEarlyAt(f, c.name + c.lead, n);
  }

  lemma TheClash(f: Form, items: seq<Item>) returns (i: nat, j: nat, n: nat)
    requires NeedleClash(f, items)
    ensures Clash(f, items, i, j, n)
  {
    i, j, n :| Clash(f, items, i, j, n);
  }

  // ----- What the client then holds

  lemma RunOfOne(a: Msg, supply: nat -> string)
    requires a.toolCalls != []
    ensures var r := Run([a], supply);
            && r.Ok? && |r.value.cache| == |a.toolCalls|
            && r.value.msg == a.(toolCalls := Stamped(a.toolCalls, r.value.cache))
            && r.value.client == r.value.msg
  {
    assert [a][..0] == [];
    GrownCacheGrows(a.toolCalls, [], supply);
    ExtendsIsOk(EMPTY_MSG, Filled(a, [], supply));
    DiffsRebuild(EMPTY_MSG, Filled(a, [], supply));
  }

  /** A call that changes its name makes the next update throw. */
  lemma RenamedThrows(a: Msg, b: Msg, supply: nat -> string)
    requires a.content == b.content && a.reasoning == b.reasoning && 0 < |a.toolCalls| <= |b.toolCalls|
    requires a.toolCalls[|a.toolCalls| - 1].name != b.toolCalls[|a.toolCalls| - 1].name
    ensures Run([a, b], supply) == Err(ToolCallMismatch)
  {
    hide GrownCache, Fold, NewCallDiffs;
    RunOfOne(a, supply);
    assert [a, b][..1] == [a];
    var s := Run([a], supply).value;
    GrownCacheGrows(b.toolCalls, s.cache, supply);
    var filled := Filled(b, s.cache, supply);
    var k := |a.toolCalls| - 1;
    assert filled.toolCalls[k].name == b.toolCalls[k].name && s.msg.toolCalls[k].name == a.toolCalls[k].name;
    assert Diffs(s.msg, filled) == Err(ToolCallMismatch);
  }

  /** The condition on names is needed in every run: a prefix shows the call under a shorter name, and the update that
      brings the whole list throws. */
  lemma EarlyNameThrows(f: Form, pre: string, m: Msg, s: Scope, q: nat, streaming: bool, supply: nat -> string) returns (at: nat)
    requires SafeScope(f, s) && q < |s.calls| && EndsEarly(f, s.calls[q])
    ensures at < |Render(f, s)|
    ensures Run(RunOf(f, pre, m, s, [at, |Render(f, s)|], streaming), supply) == Err(ToolCallMismatch)
  {
    hide SafeCall, CallsAt, Render, Finals, Run, EndsEarly, EndsEarlyAt;
    var n := TheEnd(f, s.calls[q]);
    var short;
    at, short := EarlyShown(f, pre, m.toolCalls, s, q, n, streaming);
    AllCallsShown(f, pre, m.toolCalls, s, q, streaming);
    var ms := RunOf(f, pre, m, s, [at, |Render(f, s)|], streaming);
    var base := m.toolCalls + Finals(f, s.calls[..q]);
    assert ms == [ms[0], ms[1]];
    assert ms[0].toolCalls[|base|].name == short;
    assert ms[1].toolCalls[|base|] == FinalCall(f, s.calls[q]);
    RenamedThrows(ms[0], ms[1], supply);
  }

  lemma RunSnoc(ms: seq<Msg>, m: Msg, supply: nat -> string)
    requires Run(ms, supply).Ok?
    ensures Run(ms + [m], supply) == Update(Run(ms, supply).value, m, supply)
  {
    hide Update;
    assert (ms + [m])[..|ms|] == ms;
  }

  /** One call whose arguments are `x`. */
  function OneCall(name: string, x: string): Msg {
    EMPTY_MSG.(toolCalls := [ToolCall(name, x, [])])
  }

  /** An update that takes arguments back sends nothing, and what follows is sent again. */
  lemma SentTwice(name: string, x: string, y: string, z: string, supply: nat -> string)
    requires y != [] && y < x && y < z
    ensures var r := Run([OneCall(name, x)] + [OneCall(name, y)] + [OneCall(name, z)], supply);
            && r.Ok? && |r.value.client.toolCalls| == 1 && r.value.client.toolCalls[0].name == name
            && r.value.client.toolCalls[0].arguments == x + z[|y|..]
  {
    var a, b, c := OneCall(name, x), OneCall(name, y), OneCall(name, z);
    RunOfOne(a, supply);
    var s1 := Run([a], supply).value;
    var id := s1.cache[0];
    assert s1.msg.toolCalls == [ToolCall(name, x, id)];
    RunSnoc([a], b, supply);
    GrownCacheGrows(b.toolCalls, s1.cache, supply);
    var s2 := Shrunk(s1, name, x, y, id, supply);
    RunSnoc([a] + [b], c, supply);
    Regrown(s2, name, x, y, z, id, supply);
  }

  lemma Shrunk(s: Session, name: string, x: string, y: string, id: string, supply: nat -> string) returns (t: Session)
    requires s.msg == EMPTY_MSG.(toolCalls := [ToolCall(name, x, id)]) && s.client == s.msg && s.cache == [id] && y < x
    ensures Update(s, OneCall(name, y), supply) == Ok(t)
    ensures t.msg == EMPTY_MSG.(toolCalls := [ToolCall(name, y, id)]) && t.client == s.client && t.cache == [id]
  {
    var b := OneCall(name, y);
    GrownCacheGrows(b.toolCalls, s.cache, supply);
    var filled := Filled(b, s.cache, supply);
    assert filled.toolCalls == [ToolCall(name, y, id)];
    assert StringDiff(x, y) == Ok([]);
    assert NewCallDiffs(filled, 1) == [];
    var none: seq<Diff> := [];
    assert none + none + none + none == none;
    assert Diffs(s.msg, filled) == Ok(none);
    t := Update(s, b, supply).value;
  }

  lemma Regrown(s: Session, name: string, x: string, y: string, z: string, id: string, supply: nat -> string)
    requires s.msg == EMPTY_MSG.(toolCalls := [ToolCall(name, y, id)]) && s.cache == [id] && y != [] && y < z
    requires s.client == EMPTY_MSG.(toolCalls := [ToolCall(name, x, id)])
    ensures var r := Update(s, OneCall(name, z), supply);
            && r.Ok? && |r.value.client.toolCalls| == 1 && r.value.client.toolCalls[0].name == name
            && r.value.client.toolCalls[0].arguments == x + z[|y|..]
  {
    var c := OneCall(name, z);
    GrownCacheGrows(c.toolCalls, s.cache, supply);
    var filled := Filled(c, s.cache, supply);
    assert filled.toolCalls == [ToolCall(name, z, id)];
    var d := Diff([], [], Some(0), ToolCall([], z[|y|..], []));
    assert NewCallDiffs(filled, 1) == [];
    assert LastCallDiffs(s.msg, filled) == Ok([d]);
    var none: seq<Diff> := [];
    assert none + none + [d] + none == [d];
    assert Diffs(s.msg, filled) == Ok([d]);
    assert Fold(s.client, [d]) == Apply(s.client, d) by { assert [d][1..] == []; }
  }

  // ----- An input

  /** A call whose first key is the needle itself. */
  const NEEDLE_CALL := Call([], "f", [], [Item([], NEEDLE, [], "x"), Item([], "b", [], "y")], [])

  const NEEDLE_SCOPE := Scope([], [NEEDLE_CALL], [])

  lemma AsciiFirst(b: char, cs: seq<CodePoint>)
    requires IsAscii(b) && Scalars(cs)
    ensures Scalars([b as int] + cs) && EncodeAll([b as int] + cs) == [b] + EncodeAll(cs)
  {
    var all: seq<CodePoint> := [b as int] + cs;
    assert all[1..] == cs && Encode(b as int) == [b];
  }

  lemma {:induction false} AsciiText(s: string)
    requires forall i :: 0 <= i < |s| ==> IsAscii(s[i])
    ensures WellFormed(s)
  {
    if s == [] {
      assert EncodeAll([]) == s && Scalars([]);
    } else {
      AsciiText(s[1..]);
      var cs: seq<CodePoint> :| EncodeAll(cs) == s[1..] && Scalars(cs);
      AsciiFirst(s[0], cs);
      assert [s[0]] + s[1..] == s;
    }
  }

  lemma NeedleIsPlain()
    ensures forall i :: 0 <= i < |NEEDLE| ==> IsAscii(NEEDLE[i]) && NEEDLE[i] != '<' && NEEDLE[i] != '>'
  {
  }

  /** Text without angle brackets is safe in every part of a Seed-OSS call. */
  lemma PlainInSeed(f: Form, s: string)
    requires f == SEED_OSS && SafeForm(f) && forall i :: 0 <= i < |s| ==> IsAscii(s[i]) && s[i] != '<' && s[i] != '>'
    ensures WellFormed(s) && !Contains(s, f.keyValSep) && !Contains(s, f.valEnd) && !Contains(s, f.toolSep) && !Contains(s, f.toolEnd)
  {
    hide Contains, IsTag, WellFormed;
    AsciiText(s);
    NoFirstNoTag(s, f.keyValSep);
    NoFirstNoTag(s, f.valEnd);
    NoFirstNoTag(s, f.toolSep);
    NoFirstNoTag(s, f.toolEnd);
  }

  lemma NeedleCallIsSafe()
    ensures SafeScope(SEED_OSS, NEEDLE_SCOPE)
  {
    hide Contains, WellFormed, SafeForm, Strip;
    var f := SEED_OSS;
    SeedIsSafe(f);
    NeedleIsPlain();
    PlainInSeed(f, NEEDLE);
    PlainInSeed(f, "x");
    PlainInSeed(f, "y");
    PlainInSeed(f, "b");
    PlainInSeed(f, "f");
    StripOf([], "f", []);
    assert [] + "f" + [] == "f" && "f" + [] == "f";
    assert NEEDLE != "b" by { assert |NEEDLE| == 26; }
    var c := NEEDLE_CALL;
    assert c.items[0].key == NEEDLE && c.items[1].key == "b";
    assert SafeItem(f, c.items[0]) && SafeItem(f, c.items[1]);
    assert forall p <- c.items :: p == c.items[0] || p == c.items[1];
    assert SafeCall(f, c);
  }

  lemma NothingSeen(lit: string)
    ensures Seen(lit, []) == []
  {
  }

  lemma NeedleCallClashes()
    ensures Clash(SEED_OSS, NEEDLE_CALL.items, 0, 1, 0)
  {
    hide Seen;
    var f := SEED_OSS;
    assert ("b" + f.keyValSep)[..0] == [];
    NothingSeen(f.keyValSep);
    assert [] + NEEDLE == NEEDLE;
  }

  /** The text that the client ends up with, and the one it should have. */
  const SENT_TWICE := "{\"" + NEEDLE + "\":\"x\"" + ("\"" + NEEDLE + "\":\"x\",\"b\":\"y\"}")
  const SENT_ONCE := "{" + ("\"" + NEEDLE + "\":\"x\",\"b\":\"y\"}")

  lemma PairTexts(n: string)
    requires Escape(n) == n
    ensures Pair((n, "x")) == "\"" + n + "\":\"x\"" && Pair(("b", "y")) == "\"b\":\"y\""
  {
    hide Escape;
    EscapePlain("x");
    EscapePlain("y");
    EscapePlain("b");
    assert "\":\"" + "x" + "\"" == "\":\"x\"";
    assert "\"" + n + "\":\"" + "x" + "\"" == "\"" + n + ("\":\"" + "x" + "\"");
    assert "\"" + "b" + "\":\"" + "y" + "\"" == "\"b\":\"y\"";
  }

  lemma TwoPairs(n: string)
    ensures var x := "\"" + n + "\":\"x\"";
            && "{" + x == "{\"" + n + "\":\"x\""
            && "{" + x + "," + "\"b\":\"y\"" + "}" == "{" + ("\"" + n + "\":\"x\",\"b\":\"y\"}")
  {
    assert "\":\"x\"" + "," + "\"b\":\"y\"" + "}" == "\":\"x\",\"b\":\"y\"}";
  }

  lemma DumpsOf(n: string)
    requires Escape(n) == n
    ensures DumpOpen([(n, "x")]) == "{\"" + n + "\":\"x\""
    ensures Dump([(n, "x")] + [("b", "y")]) == "{" + ("\"" + n + "\":\"x\",\"b\":\"y\"}")
  {
    hide Pairs, Pair;
    PairTexts(n);
    DumpOpenSnoc([], (n, "x"));
    DumpOpenSnoc([(n, "x")], ("b", "y"));
    assert [] + [(n, "x")] == [(n, "x")];
    TwoPairs(n);
  }

  lemma NeedleDumps()
    ensures DumpOpen([(NEEDLE, "x")]) == "{\"" + NEEDLE + "\":\"x\""
    ensures Dump([(NEEDLE, "x")] + [("b", "y")]) == SENT_ONCE
  {
    hide Dump, DumpOpen, Escape;
    NeedlePlain();
    DumpsOf(NEEDLE);
  }

  lemma NeedleShown()
    ensures PartialCall("f", Put([(NEEDLE, "x")], NEEDLE, [])) == [ToolCall("f", "{", [])]
  {
    hide PartialJson, Escape;
    assert [] + NEEDLE == NEEDLE;
    assert Put([(NEEDLE, "x")], NEEDLE, []) == [(NEEDLE, [])] == Put([], NEEDLE, []);
    CutInKey("f", [], []);
    EscapeNothing();
    var x := Base([]) + "\"" + [];
    assert x == "{\"" && x[..|x| - 1] == "{";
  }

  /** An input on which nothing throws and the client silently ends up with text that is not JSON. */
  lemma NeedleKeyIsSentTwice(pre: string, streaming: bool, supply: nat -> string) returns (cuts: seq<nat>)
    ensures SafeScope(SEED_OSS, NEEDLE_SCOPE) && SEED_OSS.Valid()
    ensures Ascending(cuts, |Render(SEED_OSS, NEEDLE_SCOPE)|) && |cuts| == 3 && cuts[2] == |Render(SEED_OSS, NEEDLE_SCOPE)|
    ensures var r := Run(RunOf(SEED_OSS, pre, EMPTY_MSG, NEEDLE_SCOPE, cuts, streaming), supply);
            && r.Ok? && |r.value.client.toolCalls| == 1
            && r.value.client.toolCalls[0].arguments == SENT_TWICE != SENT_ONCE
            && Finals(SEED_OSS, NEEDLE_SCOPE.calls) == [ToolCall("f", SENT_ONCE, [])]
  {
    hide Render, RenderCall, CallsAt, UpTo, InKey, Place, PartialCall, Run, SafeScope, Dump, DumpOpen, Clash, Put;
    var f, s, c := SEED_OSS, NEEDLE_SCOPE, NEEDLE_CALL;
    NeedleCallIsSafe();
    NeedleCallClashes();
    SafeIsValid(f, s);
    NeedleDumps();
    NeedleShown();
    NeedleStored();
    var r, k := UpTo(f, c, 1), InKey(f, c, 1, 0);
    InKeyPrefix(f, c, 1, 0);
    PrefixLength(r, k, RenderCall(f, c));
    ShownBefore(f, pre, [], s, 0, 1, streaming);
    var y := ShownInClash(f, pre, [], s, 0, 0, 1, 0, streaming);
    AllShown(f, pre, [], s, streaming);
    assert Finals(f, s.calls[..0]) == [];
    PlaceOrder(f, s, 0, r, k);
    cuts := [Place(f, s, 0, r), Place(f, s, 0, r + k), |Render(f, s)|];
    var ms := RunOf(f, pre, EMPTY_MSG, s, cuts, streaming);
    var x := DumpOpen([(NEEDLE, "x")]);
    assert [] + [] + [ToolCall("f", x, [])] == [ToolCall("f", x, [])];
    assert [] + [] + [ToolCall("f", "{", [])] == [ToolCall("f", "{", [])];
    assert [] + [ToolCall("f", SENT_ONCE, [])] == [ToolCall("f", SENT_ONCE, [])];
    assert ms == [OneCall("f", x)] + [OneCall("f", "{")] + [OneCall("f", SENT_ONCE)];
    SentTwice("f", x, "{", SENT_ONCE, supply);
    assert |SENT_TWICE| > |SENT_ONCE|;
  }

  lemma SafeIsValid(f: Form, s: Scope)
    requires SafeScope(f, s)
    ensures f.Valid()
  {
  }

  lemma PlaceOrder(f: Form, s: Scope, q: nat, r: string, k: string)
    requires q < |s.calls|
    ensures Place(f, s, q, r) <= Place(f, s, q, r + k)
  {
  }

  lemma NeedleStored()
    ensures Stored(SEED_OSS, NEEDLE_CALL.items[..1]) == [(NEEDLE, "x")]
    ensures Finals(SEED_OSS, NEEDLE_SCOPE.calls) == [ToolCall("f", Dump([(NEEDLE, "x")] + [("b", "y")]), [])]
  {
    hide Dump;
    var f, items := SEED_OSS, NEEDLE_CALL.items;
    assert items[..1] == [items[0]] && items[..1][1..] == [] && items[1..] == [items[1]] && items[1..][1..] == [];
    assert Stored(f, items[1..]) == [("b", "y")];
    assert Stored(f, items) == [(NEEDLE, "x")] + [("b", "y")];
    assert Finals(f, [NEEDLE_CALL]) == [FinalCall(f, NEEDLE_CALL)] + Finals(f, []);
  }
}

/** What is shown of rendered tool calls only grows as the rendering arrives, so a client that follows the differences
    ends up with exactly the calls. */
module XmlGrowth {
  import opened Text
  import opened ChatMessage
  import opened ChatParser
  import opened Utf8
  import opened JsonString
  import opened XmlToolCall
  import opened XmlRendering
  import opened XmlStreaming
  import opened XmlRun

  // ----- Cut-off text before a delimiter

  /** Truncation does not go back behind an ASCII byte. */
  lemma AsciiIsKept(cs: seq<CodePoint>, i: nat, n: nat)
    requires i < n <= |EncodeAll(cs)| && IsAscii(EncodeAll(cs)[i])
    ensures i <= TruncateSafe(EncodeAll(cs)[..n])
  {
    hide EncodeAll, Encode, TruncateSafe;
    var j := BoundaryBelow(cs, i);
    assert cs[..|cs|] == cs;
    if Offset(cs, j) < i {
      BytesOf(cs, j, 0);
      OffsetStep(cs, j);
      BytesOf(cs, j, i - Offset(cs, j));
    } else {
      var k := TruncateIsGreatestBoundary(cs, n);
      if k < j {
        OffsetMonotone(cs, k + 1, j);
      } else {
        OffsetMonotone(cs, j, k);
      }
    }
  }

  /** A text that reaches into the delimiter is held back before the delimiter. */
  lemma HeldBefore(x: string, lit: string, r: string)
    requires r < x + lit && |x| < |r|
    ensures HoldBack(r, lit, 0) <= |x|
  {
    SplitPrefix(r, x, lit);
    assert HoldsAt(r, lit, |x|);
    PartialStopLeast(r, lit, 0);
  }

  lemma SeenIsPrefix(x: string, lit: string, r: string)
    requires r < x + lit
    ensures Seen(lit, r) <= x
  {
    hide HoldBack, TruncateSafe;
    var w := x + lit;
    if |x| < |r| {
      HeldBefore(x, lit, r);
    }
    assert forall n :: 0 <= n <= |r| && n <= |x| ==> r[..n] == w[..n] == x[..n];
  }

  lemma TakeMonotone(r: string, r': string, m: nat, n: nat)
    requires r <= r' && m <= n && m <= |r| && n <= |r'|
    ensures r[..m] <= r'[..n]
  {
  }

  lemma SeenGrows(x: string, lit: string, r: string, r': string)
    requires WellFormed(x) && IsTag(lit) && r <= r' && r' < x + lit
    ensures Seen(lit, r) <= Seen(lit, r')
  {
    hide HoldBack, TruncateSafe, IsTag, HoldsAt;
    var h, h' := HoldBack(r, lit, 0), HoldBack(r', lit, 0);
    HoldBackMonotone(r, r', lit, 0);
    HoldIn(r, lit);
    if h' < |r'| {
      TakeMonotone(r, r', if h < |r| then h else TruncateSafe(r), h');
    } else {
      if |x| < |r'| {
        HeldBefore(x, lit, r');
      }
      SeenInside(x, lit, r, r');
    }
  }

  /** The case in which the longer text has not reached the delimiter. */
  lemma SeenInside(x: string, lit: string, r: string, r': string)
    requires WellFormed(x) && IsTag(lit) && r <= r' && r' < x + lit && |r'| <= |x| && HoldBack(r', lit, 0) == |r'|
    ensures Seen(lit, r) <= Seen(lit, r')
  {
    hide HoldBack, TruncateSafe, HoldsAt, EncodeAll;
    var cs: seq<CodePoint> :| EncodeAll(cs) == x && Scalars(cs);
    var w := x + lit;
    assert r' == w[..|r'|] == x[..|r'|];
    assert r == r'[..|r|] == x[..|r|];
    HoldIn(r, lit);
    var h := HoldBack(r, lit, 0);
    if h < |r| {
      assert x[h] == r[h] && IsAscii(lit[0]);
      AsciiIsKept(cs, h, |r'|);
      TakeMonotone(r, r', h, TruncateSafe(r'));
    } else {
      TruncateMonotone(cs, |r|, |r'|);
      TakeMonotone(r, r', TruncateSafe(r), TruncateSafe(r'));
    }
  }

  // ----- One pair

  lemma KeyTextGrows(args: Args, k: string, k': string, v: string)
    requires k <= k'
    ensures Base(args) <= DropQuote(KeyText(args, k)) <= DropQuote(KeyText(args, k'))
    ensures DropQuote(KeyText(args, k)) <= DropQuote(ValueText(args, k', v))
  {
    hide Escape, Base;
    EscapeMonotone(k, k');
    var a, b, c := KeyText(args, k), KeyText(args, k'), ValueText(args, k', v);
    assert a <= b;
    assert c == b + ("\":\"" + Escape(v));
    DropQuoteMonotone(a, b);
    DropQuoteMonotone(a, c);
  }

  lemma ValueTextGrows(args: Args, k: string, v: string, v': string)
    requires v <= v'
    ensures Base(args) <= DropQuote(ValueText(args, k, v)) <= DropQuote(ValueText(args, k, v'))
    ensures DropQuote(ValueText(args, k, v)) <= DumpOpen(args + [(k, v')])
  {
    hide Escape, Base, DumpOpen;
    EscapeMonotone(v, v');
    var a, b, d := ValueText(args, k, v), ValueText(args, k, v'), DumpOpen(args + [(k, v')]);
    assert a <= b;
    DumpOpenSnoc(args, (k, v'));
    assert d == b + "\"";
    DropQuoteMonotone(a, b);
    DropQuoteMonotone(a, d);
    assert |DropQuote(a)| >= |Base(args)|;
  }

  lemma BaseGrows(args: Args)
    ensures DumpOpen(args) <= Base(args)
  {
  }

  lemma TrimmedGrows(f: Form, s: string, t: string)
    requires s <= t
    ensures Trimmed(f, s) <= Trimmed(f, t)
  {
    hide Strip;
    StripMonotone(s, t);
  }

  /** Where the key, what follows it, and the value begin in a pair. */
  function KeyAt(f: Form, p: Item): nat { |p.gap| + |f.keyStart| }
  function SecondAt(f: Form, p: Item): nat { KeyAt(f, p) + |p.key| + |f.keyValSep| }
  function ValueAt(f: Form, p: Item): nat { SecondAt(f, p) + |p.mid| + |Sep2(f)| }

  lemma PairZones(f: Form, p: Item, r: string)
    requires r < RenderItem(f, p)
    ensures var k, n, v := KeyAt(f, p), SecondAt(f, p), ValueAt(f, p);
            && (k <= |r| < n ==> r[k..] < p.key + f.keyValSep)
            && (v <= |r| ==> r[v..] < p.value + f.valEnd)
  {
    var k, n, v := KeyAt(f, p), SecondAt(f, p), ValueAt(f, p);
    var head, mid, tail := p.key + f.keyValSep, p.mid + Sep2(f), p.value + f.valEnd;
    if k <= |r| {
      BehindGap(r, p.gap, f.keyStart, head + (mid + tail));
      if |r| < n {
        ShorterPrefix(r[k..], head, mid + tail);
      } else if v <= |r| {
        SplitPrefix(r[k..], head, mid + tail);
        SplitPrefix(r[k..][n - k..], mid, tail);
        assert r[k..][n - k..][v - n..] == r[v..];
      }
    }
  }

  lemma PrefixChain(a: string, b: string, c: string)
    requires a <= b && b <= c
    ensures a <= c
  {
  }

  /** What is shown of a pair lies between what was there and the complete pair. */
  lemma PairBetween(f: Form, args: Args, p: Item, r: string)
    requires SafeForm(f) && r < RenderItem(f, p)
    ensures DumpOpen(args) <= PairView(f, args, p, r) <= DumpOpen(args + [(p.key, Trimmed(f, p.value))])
  {
    hide Seen, Base, DumpOpen, DropQuote, Trimmed, KeyText, ValueText, RenderItem, SafeForm, Sep2;
    var k, n, at := KeyAt(f, p), SecondAt(f, p), ValueAt(f, p);
    var v := Trimmed(f, p.value);
    var full := DropQuote(ValueText(args, p.key, v));
    PairZones(f, p, r);
    BaseGrows(args);
    KeyTextGrows(args, p.key, p.key, v);
    ValueTextGrows(args, p.key, v, v);
    var end := DumpOpen(args + [(p.key, v)]);
    if |r| < k {
      PrefixChain(Base(args), full, end);
      PrefixChain(DumpOpen(args), Base(args), end);
    } else if |r| < n {
      var t := Seen(f.keyValSep, r[k..]);
      SeenIsPrefix(p.key, f.keyValSep, r[k..]);
      KeyTextGrows(args, t, p.key, v);
      PrefixChain(DumpOpen(args), Base(args), DropQuote(KeyText(args, t)));
      PrefixChain(DropQuote(KeyText(args, t)), full, end);
    } else {
      var t := if |r| < at then [] else Trimmed(f, Seen(f.valEnd, r[at..]));
      if |r| >= at {
        SeenIsPrefix(p.value, f.valEnd, r[at..]);
        TrimmedGrows(f, Seen(f.valEnd, r[at..]), p.value);
      }
      ValueTextGrows(args, p.key, t, v);
      PrefixChain(DumpOpen(args), Base(args), DropQuote(ValueText(args, p.key, t)));
    }
  }

  lemma PairGrows(f: Form, args: Args, p: Item, r: string, r': string)
    requires SafeForm(f) && SafeItem(f, p) && r <= r' && r' < RenderItem(f, p)
    ensures PairView(f, args, p, r) <= PairView(f, args, p, r')
  {
    hide Seen, Base, DumpOpen, DropQuote, Trimmed, KeyText, ValueText, RenderItem, IsTag, Sep2;
    var k, n, at := KeyAt(f, p), SecondAt(f, p), ValueAt(f, p);
    PairZones(f, p, r);
    PairZones(f, p, r');
    if |r| < k {
      PairBetween(f, args, p, r');
    } else if |r'| < n {
      SeenGrows(p.key, f.keyValSep, r[k..], r'[k..]);
      KeyTextGrows(args, Seen(f.keyValSep, r[k..]), Seen(f.keyValSep, r'[k..]), []);
    } else {
      var v' := if |r'| < at then [] else Trimmed(f, Seen(f.valEnd, r'[at..]));
      if |r| < n {
        SeenIsPrefix(p.key, f.keyValSep, r[k..]);
        KeyTextGrows(args, Seen(f.keyValSep, r[k..]), p.key, v');
      } else if |r| < at {
        ValueTextGrows(args, p.key, [], v');
      } else {
        SeenGrows(p.value, f.valEnd, r[at..], r'[at..]);
        TrimmedGrows(f, Seen(f.valEnd, r[at..]), Seen(f.valEnd, r'[at..]));
        ValueTextGrows(args, p.key, Trimmed(f, Seen(f.valEnd, r[at..])), v');
      }
    }
  }

  // ----- The arguments of one call

  /** Text that breaks off within the pairs, or in the white space and the closing tag behind them. */
  predicate CutIn(f: Form, items: seq<Item>, gap: string, r: string) {
    r < RenderItems(f, items) + (gap + f.toolEnd)
  }

  lemma CutInFirst(f: Form, items: seq<Item>, gap: string, r: string)
    requires CutIn(f, items, gap, r) && items != [] && |r| < |RenderItem(f, items[0])|
    ensures r < RenderItem(f, items[0])
  {
    hide RenderItem;
    RenderItemsSplit(f, items, gap + f.toolEnd);
    ShorterPrefix(r, RenderItem(f, items[0]), RenderItems(f, items[1..]) + (gap + f.toolEnd));
  }

  lemma CutBehindFirst(f: Form, items: seq<Item>, gap: string, r: string)
    requires CutIn(f, items, gap, r) && items != [] && |RenderItem(f, items[0])| <= |r|
    ensures CutIn(f, items[1..], gap, r[|RenderItem(f, items[0])|..])
  {
    hide RenderItem;
    RenderItemsSplit(f, items, gap + f.toolEnd);
    SplitPrefix(r, RenderItem(f, items[0]), RenderItems(f, items[1..]) + (gap + f.toolEnd));
  }

  /** Storing more items extends the dump. */
  lemma {:induction false} StoredGrows(f: Form, args: Args, items: seq<Item>)
    ensures DumpOpen(args) <= DumpOpen(args + Stored(f, items))
    decreases |items|
  {
    hide DumpOpen, Base, Trimmed;
    if items == [] {
      assert args + [] == args;
    } else {
      var q := (items[0].key, Trimmed(f, items[0].value));
      DumpOpenSnoc(args, q);
      BaseGrows(args);
      StoredGrows(f, args + [q], items[1..]);
      StoredSplit(f, args, items);
      PrefixChain(DumpOpen(args), DumpOpen(args + [q]), DumpOpen(args + Stored(f, items)));
    }
  }

  lemma {:induction false} ArgsBetween(f: Form, args: Args, items: seq<Item>, gap: string, r: string)
    requires SafeForm(f) && CutIn(f, items, gap, r)
    ensures DumpOpen(args) <= ArgsView(f, args, items, r) <= DumpOpen(args + Stored(f, items))
    decreases |items|
  {
    hide DumpOpen, Base, Trimmed, PairView, CutIn, RenderItem, SafeForm, Stored;
    StoredGrows(f, args, items);
    if items != [] {
      var p, rest := items[0], items[1..];
      var more := args + [(p.key, Trimmed(f, p.value))];
      var end := DumpOpen(args + Stored(f, items));
      StoredSplit(f, args, items);
      StoredGrows(f, more, rest);
      if |r| < |RenderItem(f, p)| {
        CutInFirst(f, items, gap, r);
        PairBetween(f, args, p, r);
        PrefixChain(PairView(f, args, p, r), DumpOpen(more), end);
      } else {
        CutBehindFirst(f, items, gap, r);
        ArgsBetween(f, more, rest, gap, r[|RenderItem(f, p)|..]);
        DumpOpenSnoc(args, (p.key, Trimmed(f, p.value)));
        BaseGrows(args);
        PrefixChain(DumpOpen(args), DumpOpen(more), ArgsView(f, more, rest, r[|RenderItem(f, p)|..]));
      }
    }
  }

  lemma {:induction false} ArgsGrow(f: Form, args: Args, items: seq<Item>, gap: string, r: string, r': string)
    requires SafeForm(f) && (forall p <- items :: SafeItem(f, p)) && r <= r' && CutIn(f, items, gap, r')
    ensures CutIn(f, items, gap, r)
    ensures ArgsView(f, args, items, r) <= ArgsView(f, args, items, r')
    decreases |items|
  {
    hide DumpOpen, Base, Trimmed, PairView, RenderItem, RenderItems, SafeForm, SafeItem, Stored;
    if items != [] {
      var p, rest := items[0], items[1..];
      var more, n := args + [(p.key, Trimmed(f, p.value))], |RenderItem(f, p)|;
      if |r'| < n {
        CutInFirst(f, items, gap, r');
        PairGrows(f, args, p, r, r');
      } else if |r| < n {
        CutInFirst(f, items, gap, r);
        PairBetween(f, args, p, r);
        CutBehindFirst(f, items, gap, r');
        ArgsBetween(f, more, rest, gap, r'[n..]);
        PrefixChain(PairView(f, args, p, r), DumpOpen(more), ArgsView(f, more, rest, r'[n..]));
      } else {
        CutBehindFirst(f, items, gap, r');
        ArgsGrow(f, more, rest, gap, r[n..], r'[n..]);
      }
    }
  }

  // ----- Lists of calls

  /** The parser's list may continue: earlier calls are final, the last one keeps its name and its arguments grow. */
  predicate CallsGrow(a: seq<ToolCall>, b: seq<ToolCall>) {
    var n := |a|;
    && n <= |b|
    && (forall i :: 0 <= i < n - 1 ==> a[i] == b[i])
    && (n > 0 ==> a[n - 1].name == b[n - 1].name && a[n - 1].id == b[n - 1].id && a[n - 1].arguments <= b[n - 1].arguments)
  }

  lemma CallsGrowBehind(x: seq<ToolCall>, a: seq<ToolCall>, b: seq<ToolCall>)
    requires CallsGrow(a, b)
    ensures CallsGrow(x + a, x + b)
  {
  }

  lemma CallBetween(f: Form, c: Call, r: string)
    requires SafeForm(f) && r < RenderCall(f, c)
    ensures var v := CallView(f, c, r);
            && |v| <= 1
            && (v != [] ==> v[0].name == c.name && v[0].id == [] && v[0].arguments <= FinalCall(f, c).arguments)
  {
    hide ArgsView, RenderItems, Stored, Pairs, SafeForm;
    var front, head, tail := c.gap + f.toolStart, c.name + c.lead + f.toolSep, RenderItems(f, c.items) + (c.close + f.toolEnd);
    var n := |front| + |head|;
    assert RenderCall(f, c) == front + (head + tail);
    assert [] + Stored(f, c.items) == Stored(f, c.items);
    if |r| >= n {
      SplitPrefix(r, front, head + tail);
      SplitPrefix(r[|front|..], head, tail);
      assert r[|front|..][|head|..] == r[n..];
      ArgsBetween(f, [], c.items, c.close, r[n..]);
      PrefixChain(ArgsView(f, [], c.items, r[n..]), DumpOpen(Stored(f, c.items)), Dump(Stored(f, c.items)));
    }
  }

  lemma NothingDumped()
    ensures DumpOpen([]) == "{"
  {
  }

  lemma CallGrows(f: Form, c: Call, r: string, r': string)
    requires SafeForm(f) && SafeCall(f, c) && r <= r' && r' < RenderCall(f, c)
    ensures CallsGrow(CallView(f, c, r), CallView(f, c, r'))
  {
    hide ArgsView, RenderItems, Stored, Pairs, SafeForm, SafeName, SafeItem;
    var front, head, tail := c.gap + f.toolStart, c.name + c.lead + f.toolSep, RenderItems(f, c.items) + (c.close + f.toolEnd);
    var n := |front| + |head|;
    assert RenderCall(f, c) == front + (head + tail);
    if |r'| >= n {
      SplitPrefix(r', front, head + tail);
      SplitPrefix(r'[|front|..], head, tail);
      assert r'[|front|..][|head|..] == r'[n..];
      if |r| >= n {
        ArgsGrow(f, [], c.items, c.close, r[n..], r'[n..]);
      } else {
        ArgsBetween(f, [], c.items, c.close, r'[n..]);
        NothingDumped();
      }
    }
  }

  lemma {:induction false} ViewIsPrefix(f: Form, calls: seq<Call>, gap: string, r: string)
    requires SafeForm(f) && r < RenderCalls(f, calls) + (gap + f.scopeEnd)
    ensures CallsGrow(CallsView(f, calls, r), Finals(f, calls))
    decreases |calls|
  {
    hide SafeForm, RenderCall, FinalCall, CallView;
    if calls != [] {
      var c, rest := calls[0], calls[1..];
      var seg, tail := RenderCall(f, c), RenderCalls(f, rest) + (gap + f.scopeEnd);
      RenderCallsSplit(f, calls, gap + f.scopeEnd);
      if |r| < |seg| {
        ShorterPrefix(r, seg, tail);
        CallBetween(f, c, r);
        FinalName(f, c);
      } else {
        SplitPrefix(r, seg, tail);
        ViewIsPrefix(f, rest, gap, r[|seg|..]);
        CallsGrowBehind([FinalCall(f, c)], CallsView(f, rest, r[|seg|..]), Finals(f, rest));
      }
    }
  }

  lemma FinalName(f: Form, c: Call)
    ensures FinalCall(f, c).name == c.name && FinalCall(f, c).id == []
  {
  }

  lemma {:induction false} CallsViewGrows(f: Form, calls: seq<Call>, gap: string, r: string, r': string)
    requires SafeForm(f) && (forall c <- calls :: SafeCall(f, c)) && r <= r' && r' < RenderCalls(f, calls) + (gap + f.scopeEnd)
    ensures CallsGrow(CallsView(f, calls, r), CallsView(f, calls, r'))
    decreases |calls|
  {
    hide SafeForm, SafeCall, RenderCall, FinalCall, CallView;
    if calls != [] {
      var c, rest := calls[0], calls[1..];
      var seg, tail := RenderCall(f, c), RenderCalls(f, rest) + (gap + f.scopeEnd);
      RenderCallsSplit(f, calls, gap + f.scopeEnd);
      if |r'| < |seg| {
        ShorterPrefix(r', seg, tail);
        CallGrows(f, c, r, r');
      } else {
        SplitPrefix(r', seg, tail);
        if |r| < |seg| {
          assert r < seg by { ShorterPrefix(r, seg, tail); }
          CallBetween(f, c, r);
          FinalName(f, c);
        } else {
          CallsViewGrows(f, rest, gap, r[|seg|..], r'[|seg|..]);
          CallsGrowBehind([FinalCall(f, c)], CallsView(f, rest, r[|seg|..]), CallsView(f, rest, r'[|seg|..]));
        }
      }
    }
  }

  // ----- Whole runs

  /** What the parser shows when `n` bytes of the rendering have arrived. */
  function ShownAt(f: Form, s: Scope, n: nat): seq<ToolCall>
    requires n <= |Render(f, s)|
  {
    if n < |Render(f, s)| then View(f, s, Render(f, s)[..n]) else Finals(f, s.calls)
  }

  /** The calls when the parser reads on from behind `pre`, having `done`; the whole text may be parsed as final. */
  function CallsAt(f: Form, pre: string, done: seq<ToolCall>, s: Scope, n: nat, streaming: bool): seq<ToolCall>
    requires f.Valid() && n <= |Render(f, s)|
  {
    var all := Render(f, s);
    TryXml(f, pre + all[..n], n < |all| || streaming, |pre|, done).calls
  }

  lemma NothingFollows(f: Form, partial: bool)
    ensures NotAhead(f.toolStart, [], partial)
  {
  }

  lemma AllShown(f: Form, pre: string, done: seq<ToolCall>, s: Scope, streaming: bool)
    requires SafeScope(f, s)
    ensures CallsAt(f, pre, done, s, |Render(f, s)|, streaming) == done + Finals(f, s.calls)
  {
    hide SafeCall, ParseXml, Render, Finals;
    var all := Render(f, s);
    assert pre + all[..|all|] == pre + all + [];
    NothingFollows(f, streaming);
    RoundTrip(f, pre, s, [], streaming, done);
  }

  lemma ParsedShows(f: Form, pre: string, done: seq<ToolCall>, s: Scope, n: nat, streaming: bool)
    requires StreamableScope(f, s) && n <= |Render(f, s)|
    ensures CallsAt(f, pre, done, s, n, streaming) == done + ShownAt(f, s, n)
  {
    hide SafeScope, Streamable, TryXml, View, Render, Finals;
    var all := Render(f, s);
    if n < |all| {
      PartialParse(f, pre, s, all[..n], done);
    } else {
      AllShown(f, pre, done, s, streaming);
    }
  }

  lemma PrefixOfRender(f: Form, s: Scope, n: nat)
    requires |s.gap| + |f.scopeStart| <= n < |Render(f, s)|
    ensures Render(f, s)[..n][|s.gap| + |f.scopeStart|..] < RenderCalls(f, s.calls) + (s.close + f.scopeEnd)
  {
    hide RenderCalls;
    var body := RenderCalls(f, s.calls) + (s.close + f.scopeEnd);
    assert Render(f, s) == s.gap + f.scopeStart + body;
    SplitPrefix(Render(f, s)[..n], s.gap + f.scopeStart, body);
  }

  lemma SafeCalls(f: Form, s: Scope)
    requires StreamableScope(f, s)
    ensures SafeForm(f) && forall c <- s.calls :: SafeCall(f, c)
  {
    hide SafeCall, Streamable, SafeForm;
  }

  /** Main result, prefix: as more of the rendering arrives, the shown calls only grow, up to the final ones. */
  lemma ShownGrows(f: Form, s: Scope, n: nat, n': nat)
    requires StreamableScope(f, s) && n <= n' <= |Render(f, s)|
    ensures CallsGrow(ShownAt(f, s, n), ShownAt(f, s, n'))
    ensures CallsGrow(ShownAt(f, s, n), Finals(f, s.calls))
  {
    hide SafeForm, SafeCall, CallsView, Render, Finals, StreamableScope;
    SafeCalls(f, s);
    var all, k := Render(f, s), |s.gap| + |f.scopeStart|;
    if k <= n < |all| {
      PrefixOfRender(f, s, n);
      ViewIsPrefix(f, s.calls, s.close, all[..n][k..]);
    }
    if k <= n && n' < |all| {
      PrefixOfRender(f, s, n');
      assert all[..n][k..] <= all[..n'][k..];
      CallsViewGrows(f, s.calls, s.close, all[..n][k..], all[..n'][k..]);
    }
  }

  predicate Ascending(cuts: seq<nat>, max: nat) {
    && (forall i :: 0 <= i < |cuts| ==> cuts[i] <= max)
    && (forall i, j :: 0 <= i < j < |cuts| ==> cuts[i] <= cuts[j])
  }

  /** The messages of a run: what the parser had before, and the calls at each cut. */
  function RunOf(f: Form, pre: string, m: Msg, s: Scope, cuts: seq<nat>, streaming: bool): (ms: seq<Msg>)
    requires f.Valid() && Ascending(cuts, |Render(f, s)|)
    ensures |ms| == |cuts|
  {
    seq(|cuts|, i requires 0 <= i < |cuts| => m.(toolCalls := CallsAt(f, pre, m.toolCalls, s, cuts[i], streaming)))
  }

  lemma RunGrows(f: Form, pre: string, m: Msg, s: Scope, cuts: seq<nat>, streaming: bool, i: nat, j: nat)
    requires StreamableScope(f, s) && Ascending(cuts, |Render(f, s)|) && i < j < |cuts|
    ensures f.Valid() && var ms := RunOf(f, pre, m, s, cuts, streaming); Grows(ms[i], ms[j])
  {
    hide SafeCall, Streamable, CallsAt, ShownAt, Render, Grows, CallsGrow;
    ParsedShows(f, pre, m.toolCalls, s, cuts[i], streaming);
    ParsedShows(f, pre, m.toolCalls, s, cuts[j], streaming);
    ShownGrows(f, s, cuts[i], cuts[j]);
    CallsGrowBehind(m.toolCalls, ShownAt(f, s, cuts[i]), ShownAt(f, s, cuts[j]));
    GrowsByCalls(m, CallsAt(f, pre, m.toolCalls, s, cuts[i], streaming), CallsAt(f, pre, m.toolCalls, s, cuts[j], streaming));
  }

  lemma GrowsByCalls(m: Msg, a: seq<ToolCall>, b: seq<ToolCall>)
    requires CallsGrow(a, b)
    ensures Grows(m.(toolCalls := a), m.(toolCalls := b))
  {
  }

  /** Main result, runs: however a rendering of streamable calls is cut into growing prefixes, no update throws and the
      client always holds what was shown last; once the rendering is complete that is the exact list of calls. */
  lemma ToolRunRebuilds(f: Form, pre: string, m: Msg, s: Scope, cuts: seq<nat>, streaming: bool, supply: nat -> string)
    requires StreamableScope(f, s) && Ascending(cuts, |Render(f, s)|)
    requires forall i: nat :: supply(i) != []
    ensures f.Valid()
    ensures var ms := RunOf(f, pre, m, s, cuts, streaming);
            && Run(ms, supply).Ok?
            && InStep(Run(ms, supply).value, LastShown(ms))
            && (cuts != [] && cuts[|cuts| - 1] == |Render(f, s)| && s.calls != [] ==>
                  LastShown(ms) == m.(toolCalls := m.toolCalls + Finals(f, s.calls)))
  {
    hide SafeCall, Streamable, CallsAt, Render, Run, Grows, InStep;
    var ms := RunOf(f, pre, m, s, cuts, streaming);
    forall i, j | 0 <= i < j < |ms|
      ensures Grows(ms[i], ms[j])
    {
      RunGrows(f, pre, m, s, cuts, streaming, i, j);
    }
    RunRebuilds(ms, supply);
    if cuts != [] {
      ParsedShows(f, pre, m.toolCalls, s, cuts[|cuts| - 1], streaming);
    }
  }
}

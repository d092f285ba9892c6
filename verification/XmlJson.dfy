/** The arguments of a tool call are JSON: what the client receives parses to the pairs that were read. */
module XmlJson {
  import opened Text
  import opened Utf8
  import opened ChatMessage
  import opened JsonText
  import opened JsonString
  import opened JsonValue
  import opened JsonRoundTrip
  import opened XmlToolCall
  import opened XmlStreaming

  function Member(p: (string, string)): (string, Json) {
    (p.0, JStr(p.1))
  }

  /** The object that the arguments stand for. */
  function Texts(args: Args): Members {
    if args == [] then [] else [Member(args[0])] + Texts(args[1..])
  }

  lemma {:induction false} TextsConcat(a: Args, b: Args)
    ensures Texts(a + b) == Texts(a) + Texts(b)
  {
    hide Member;
    if a == [] {
      assert a + b == b;
    } else {
      assert (a + b)[1..] == a[1..] + b;
      TextsConcat(a[1..], b);
    }
  }

  lemma {:induction false} TextsAt(args: Args, i: nat)
    requires i < |args|
    ensures |Texts(args)| == |args| && Texts(args)[i] == Member(args[i])
    decreases |args|
  {
    hide Member;
    if |args| > 1 {
      TextsAt(args[1..], if i == 0 then 0 else i - 1);
    }
  }

  lemma PairIsMember(p: (string, string))
    ensures DumpMember(Member(p)) == Pair(p)
  {
  }

  lemma PairsLast(args: Args, p: (string, string))
    ensures Pairs(args + [p]) == (if args == [] then [] else Pairs(args) + ",") + Pair(p)
  {
    hide Pair;
    var all := args + [p];
    assert all[..|all| - 1] == args && all[|all| - 1] == p;
  }

  lemma MembersLast(ms: Members, m: (string, Json))
    ensures DumpMembers(ms + [m]) == (if ms == [] then [] else DumpMembers(ms) + ",") + DumpMember(m)
  {
    hide DumpMember;
    var all := ms + [m];
    assert all[..|all| - 1] == ms && all[|all| - 1] == m;
  }

  lemma TextsLast(args: Args, p: (string, string))
    ensures Texts(args + [p]) == Texts(args) + [Member(p)]
    ensures args == [] <==> Texts(args) == []
  {
    hide Member;
    TextsConcat(args, [p]);
    assert Texts([p]) == [Member(p)] + [] == [Member(p)];
  }

  lemma NothingDumps()
    ensures Pairs([]) == DumpMembers(Texts([]))
  {
  }

  /** The dump of the arguments is that of the object. */
  lemma {:induction false} PairsAreMembers(args: Args)
    ensures Pairs(args) == DumpMembers(Texts(args))
    decreases |args|
  {
    hide Pair, DumpMember, Member, Texts, DumpMembers, Pairs;
    if args == [] {
      NothingDumps();
    } else {
      var init, p := args[..|args| - 1], args[|args| - 1];
      assert args == init + [p];
      PairsAreMembers(init);
      PairsLast(init, p);
      TextsLast(init, p);
      MembersLast(Texts(init), Member(p));
      PairIsMember(p);
    }
  }

  /** Arguments in UTF-8 with distinct keys. */
  ghost predicate Clean(args: Args) {
    && (forall i :: 0 <= i < |args| ==> WellFormed(args[i].0) && WellFormed(args[i].1))
    && forall i, j :: 0 <= i < j < |args| ==> args[i].0 != args[j].0
  }

  /** The dump of the arguments parses to them. */
  lemma DumpParses(num: string -> string, args: Args)
    requires Clean(args)
    ensures ValueOf(num, Dump(args)) == Some(JObj(Texts(args)))
  {
    hide WellFormed, DumpMembers, ValueOf, Pairs;
    PairsAreMembers(args);
    var v := JObj(Texts(args));
    assert DumpJson(v) == Dump(args);
    forall i | 0 <= i < |args|
      ensures |Texts(args)| == |args| && Texts(args)[i] == Member(args[i])
    {
      TextsAt(args, i);
    }
    assert |Texts(args)| == |args|;
    assert Writable(num, v);
    ParseDump(num, v);
  }

  // ----- Stripping keeps UTF-8

  lemma HeadOf(cs: seq<CodePoint>)
    requires cs != [] && IsAscii(EncodeAll(cs)[0])
    ensures EncodeAll(cs)[1..] == EncodeAll(cs[1..])
  {
    hide EncodeAll;
    assert EncodeAll(cs) == Encode(cs[0]) + EncodeAll(cs[1..]) by { EncodeHead(cs); }
    EncodeShape(cs[0]);
  }

  lemma EncodeHead(cs: seq<CodePoint>)
    requires cs != []
    ensures EncodeAll(cs) == Encode(cs[0]) + EncodeAll(cs[1..])
  {
    hide Encode;
  }

  lemma LastOf(cs: seq<CodePoint>)
    requires cs != [] && IsAscii(EncodeAll(cs)[|EncodeAll(cs)| - 1])
    ensures var s := EncodeAll(cs); s[..|s| - 1] == EncodeAll(cs[..|cs| - 1])
  {
    hide EncodeAll;
    var init, c := cs[..|cs| - 1], cs[|cs| - 1];
    assert cs == init + [c];
    EncodeAllConcat(init, [c]);
    EncodeOne(c);
    EncodeShape(c);
    assert EncodeAll(cs)[|EncodeAll(cs)| - 1] == Encode(c)[|Encode(c)| - 1];
  }

  lemma {:induction false} WithoutLead(pre: string, t: string)
    requires AllSpace(pre) && WellFormed(pre + t)
    ensures WellFormed(t)
    decreases |pre|
  {
    hide EncodeAll;
    if pre == [] {
      assert pre + t == t;
    } else {
      var cs: seq<CodePoint> :| EncodeAll(cs) == pre + t && Scalars(cs);
      assert cs != [] by { EncodedNothing(); }
      HeadOf(cs);
      assert (pre + t)[1..] == pre[1..] + t;
      assert Scalars(cs[1..]);
      WithoutLead(pre[1..], t);
    }
  }

  lemma EncodedNothing()
    ensures EncodeAll([]) == []
  {
  }

  lemma {:induction false} WithoutTail(t: string, post: string)
    requires AllSpace(post) && WellFormed(t + post)
    ensures WellFormed(t)
    decreases |post|
  {
    hide EncodeAll;
    if post == [] {
      assert t + post == t;
    } else {
      var cs: seq<CodePoint> :| EncodeAll(cs) == t + post && Scalars(cs);
      assert cs != [] by { EncodedNothing(); }
      LastOf(cs);
      assert (t + post)[..|t + post| - 1] == t + post[..|post| - 1];
      assert Scalars(cs[..|cs| - 1]);
      WithoutTail(t, post[..|post| - 1]);
    }
  }

  lemma StripKeepsUtf8(s: string)
    requires WellFormed(s)
    ensures WellFormed(Strip(s))
  {
    hide WellFormed, Strip;
    var pre, post := StripSplits(s);
    WithoutTail(pre + Strip(s), post);
    WithoutLead(pre, Strip(s));
  }

  // ----- The calls

  lemma {:induction false} StoredAt(f: Form, items: seq<Item>, i: nat)
    requires i < |items|
    ensures |Stored(f, items)| == |items|
    ensures Stored(f, items)[i] == (items[i].key, if f.trim then Strip(items[i].value) else items[i].value)
    decreases |items|
  {
    hide Strip;
    if |items| > 1 {
      StoredAt(f, items[1..], if i == 0 then 0 else i - 1);
    }
  }

  lemma StoredClean(f: Form, c: Call)
    requires SafeForm(f) && SafeCall(f, c)
    ensures Clean(Stored(f, c.items))
  {
    hide WellFormed, Strip, Contains, SafeForm, SafeName, Stored;
    var st := Stored(f, c.items);
    forall i | 0 <= i < |c.items|
      ensures i < |st| && st[i].0 == c.items[i].key && WellFormed(st[i].0) && WellFormed(st[i].1)
    {
      StoredAt(f, c.items, i);
      assert SafeItem(f, c.items[i]);
      StripKeepsUtf8(c.items[i].value);
    }
    StoredCount(f, c.items);
  }

  lemma {:induction false} StoredCount(f: Form, items: seq<Item>)
    ensures |Stored(f, items)| == |items|
  {
    hide Strip;
    if items != [] {
      StoredCount(f, items[1..]);
    }
  }

  /** Main result: the arguments that a rendered call is read with are JSON text, and parsing them gives the object with exactly
      the call's pairs, in order. */
  lemma ArgumentsAreJson(num: string -> string, f: Form, c: Call)
    requires SafeForm(f) && SafeCall(f, c)
    ensures ValueOf(num, FinalCall(f, c).arguments) == Some(JObj(Texts(Stored(f, c.items))))
  {
    hide SafeCall, SafeForm, Clean, ValueOf, Dump, Stored, Texts;
    StoredClean(f, c);
    DumpParses(num, Stored(f, c.items));
  }
}

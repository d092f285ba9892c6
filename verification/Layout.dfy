/** What the content-only parser makes of any text: every text is laid out in one way as reasoning blocks and what follows
    them, and the message is read off that layout. */
module Layout {
  import opened Text
  import opened ChatMessage
  import opened ChatParser
  import opened Streaming

  /** A reasoning block whose end tag has come, with the white space behind the tag. */
  datatype Block = Block(text: string, gap: string)

  /** What comes last: a block whose end tag has not come, content, or the beginning of another start tag. */
  datatype Tail = Open(text: string) | Answer(content: string) | CutStart(n: nat)

  function TailText(th: Thinking, tail: Tail): string {
    match tail
    case Open(t) => t
    case Answer(c) => c
    case CutStart(n) => if n <= |th.start| then th.start[..n] else th.start
  }

  function AnswerLength(tail: Tail): nat {
    if tail.Answer? then |tail.content| else 0
  }

  /** The text from behind the first start tag on. */
  function Body(th: Thinking, blocks: seq<Block>, tail: Tail): (r: string)
    ensures AnswerLength(tail) <= |r|
    decreases |blocks|
  {
    if blocks == [] then TailText(th, tail)
    else
      blocks[0].text + th.end + blocks[0].gap
      + (if |blocks| == 1 && !tail.Open? then TailText(th, tail) else th.start + Body(th, blocks[1..], tail))
  }

  /** The end tag comes where the block ends and not before. */
  predicate Closes(th: Thinking, text: string) {
    Find(text + th.end, th.end, 0) == Some(|text|)
  }

  /** A start tag or the beginning of one. */
  predicate Begins(th: Thinking, s: string) {
    th.start <= s || s <= th.start
  }

  predicate TailOk(th: Thinking, tail: Tail) {
    match tail
    case Open(t) => t == [] || !Contains(t, th.end)
    case Answer(c) => c == [] || (!IsSpace(c[0]) && !Begins(th, c))
    case CutStart(n) => 0 < n < |th.start|
  }

  predicate LaidOut(th: Thinking, blocks: seq<Block>, tail: Tail) {
    && (forall b <- blocks :: Closes(th, b.text) && AllSpace(b.gap))
    && TailOk(th, tail)
    && (blocks == [] ==> tail.Open?)
  }

  /** What a block adds to the content and to the reasoning: nothing, if it is blank. */
  function Piece(th: Thinking, opener: string, text: string, closed: bool): (string, string) {
    var t := Strip(text);
    if t == [] then ([], [])
    else if th.syntax.inContent then (th.Opening() + t + (if closed then th.Closing() else []), [])
    else ([], opener + t)
  }

  /** What the opening literal of a block is while thinking is forced open. */
  function Surfaced(th: Thinking): string {
    if th.syntax.forcedOpen && !th.syntax.inContent then th.start else []
  }

  /** What all blocks add. Of an open block the part is shown in front of the longest suffix that begins the end tag; it
      is closed by the end of the final text, unless there is such a suffix. */
  function Pieces(th: Thinking, opener: string, blocks: seq<Block>, tail: Tail, partial: bool): (string, string)
    decreases |blocks|
  {
    if blocks == [] then
      match tail
      case Open(t) =>
        var h := HoldBack(t, th.end, 0);
        Piece(th, opener, t[..h], h == |t| && !partial)
      case _ => ([], [])
    else
      var p, q := Piece(th, opener, blocks[0].text, true), Pieces(th, Surfaced(th), blocks[1..], tail, partial);
      (p.0 + q.0, p.1 + q.1)
  }

  function Told(p: (string, string), lead: string, tail: Tail): Msg {
    Msg(lead + p.0 + (if tail.Answer? then tail.content else []), p.1, [])
  }

  /** A start tag that begins with white space would be skipped with it. */
  predicate GoodTags(th: Thinking) {
    th.start != [] && !IsSpace(th.start[0]) && th.end != []
  }

  // ----- Finding the end of a block

  lemma OccursInside(pre: string, u: string, post: string, tag: string, j: nat)
    requires j + |tag| <= |u|
    ensures OccursAt(pre + u + post, tag, |pre| + j) <==> OccursAt(u, tag, j)
  {
    assert (pre + u + post)[|pre| + j..|pre| + j + |tag|] == u[j..j + |tag|];
  }

  lemma FindInContext(pre: string, block: string, tag: string, post: string)
    requires Find(block + tag, tag, 0) == Some(|block|)
    ensures Find(pre + block + tag + post, tag, |pre|) == Some(|pre| + |block|)
  {
    hide Find, OccursAt;
    var t, u := pre + block + tag + post, block + tag;
    assert t == pre + u + post;
    FindFirst(u, tag, 0);
    forall j: nat | |pre| <= j < |pre| + |block|
      ensures !OccursAt(t, tag, j)
    {
      OccursInside(pre, u, post, tag, j - |pre|);
    }
    OccursInside(pre, u, post, tag, |block|);
    FindIs(t, tag, |pre|, |pre| + |block|);
  }

  lemma NoEndAhead(pre: string, t: string, tag: string)
    requires !Contains(t, tag)
    ensures Find(pre + t, tag, |pre|).None?
  {
    hide Find, Contains, OccursAt;
    var input := pre + t;
    assert pre + t + [] == input;
    FindFirst(input, tag, |pre|);
    forall j: nat | |pre| <= j
      ensures !OccursAt(input, tag, j)
    {
      NotInside(t, tag, j - |pre|);
      if j + |tag| <= |input| {
        OccursInside(pre, t, [], tag, j - |pre|);
      } else {
        TooLong(input, tag, j);
      }
    }
  }

  lemma NotInside(t: string, tag: string, i: nat)
    requires !Contains(t, tag)
    ensures !OccursAt(t, tag, i)
  {
  }

  lemma TooLong(t: string, tag: string, i: nat)
    requires |t| < i + |tag|
    ensures !OccursAt(t, tag, i)
  {
  }

  lemma SkipsGap(pre: string, gap: string, rest: string)
    requires AllSpace(gap) && (rest != [] ==> !IsSpace(rest[0]))
    ensures SkipSpaces(pre + gap + rest, |pre|) == |pre + gap|
    decreases |gap|
  {
    var s := pre + gap + rest;
    if gap != [] {
      assert s[|pre|] == gap[0];
      assert pre + [gap[0]] + gap[1..] == pre + gap;
      SkipsGap(pre + [gap[0]], gap[1..], rest);
    } else if rest != [] {
      assert s[|pre|] == rest[0];
    }
  }

  /** The parser's comparison with the start tag, on what is left. */
  lemma StartsHereIs(th: Thinking, pre: string, rest: string)
    ensures StartsHere(th, pre + rest, |pre|) <==> Begins(th, rest)
    ensures StartRoom(th, pre + rest, |pre|) == if |th.start| < |rest| then |th.start| else |rest|
  {
    var n := StartRoom(th, pre + rest, |pre|);
    assert (pre + rest)[|pre|..|pre| + n] == rest[..n];
    if |th.start| < |rest| {
      assert th.start[..n] == th.start;
      assert rest <= th.start ==> |rest| <= |th.start|;
    } else {
      assert rest[..n] == rest;
      assert th.start <= rest ==> |rest| == |th.start| && rest == th.start[..n];
    }
  }

  // ----- One block

  lemma PieceIsHandled(th: Thinking, opener: string, text: string, closed: bool)
    ensures var h, p := HandleReasoning(th, opener, text, closed), Piece(th, opener, text, closed);
            h.content == p.0 && h.reasoning == p.1 && (h.pending == [] || h.pending == opener)
  {
  }

  lemma OpenTurn(th: Thinking, pre: string, t: string, partial: bool, opener: string)
    requires th.Valid() && t != [] && !Contains(t, th.end)
    ensures var p := Pieces(th, opener, [], Open(t), partial);
            OneBlock(th, pre + t, partial, |pre|, opener) == Stop(p.0, p.1, |pre + t|)
  {
    hide Find, Contains, HoldBack, HandleReasoning, Piece;
    var input := pre + t;
    NoEndAhead(pre, t, th.end);
    HoldBackSuffix(input, th.end, |pre|);
    assert input[|pre|..] == t;
    var h := HoldBack(t, th.end, 0);
    assert input[|pre|..|pre| + h] == t[..h];
    PieceIsHandled(th, opener, t[..h], h == |t| && !partial);
  }

  lemma ClosedTurn(th: Thinking, pre: string, text: string, post: string, partial: bool, opener: string)
    requires th.end != [] && Closes(th, text)
    ensures OneBlock(th, pre + text + th.end + post, partial, |pre|, opener)
            == AfterBlock(th, pre + text + th.end + post, HandleReasoning(th, opener, text, true), |pre + text + th.end|)
  {
    hide AfterBlock, HandleReasoning, HoldBack, Find;
    var input := pre + text + th.end + post;
    FindInContext(pre, text, th.end, post);
    assert input[|pre|..|pre| + |text|] == text;
  }

  /** Behind the end tag and the white space comes no whole start tag. */
  lemma AfterLast(th: Thinking, pre: string, gap: string, tail: Tail, h: Emitted)
    requires GoodTags(th) && AllSpace(gap) && TailOk(th, tail) && !tail.Open?
    ensures var input := pre + gap + TailText(th, tail);
            AfterBlock(th, input, h, |pre|)
            == Stop(h.content, h.reasoning, if tail.Answer? then |pre + gap| else |input|)
  {
    var rest := TailText(th, tail);
    SkipsGap(pre, gap, rest);
    StartsHereIs(th, pre + gap, rest);
  }

  lemma AfterInner(th: Thinking, pre: string, gap: string, rest: string, h: Emitted)
    requires GoodTags(th) && AllSpace(gap)
    ensures AfterBlock(th, pre + gap + (th.start + rest), h, |pre|)
         == More(h.content, h.reasoning, |pre + gap + th.start|, if Surfaced(th) == [] then h.pending else th.start)
  {
    var input := pre + gap + (th.start + rest);
    SkipsGap(pre, gap, th.start + rest);
    StartsHereIs(th, pre + gap, th.start + rest);
    assert input[|pre + gap|..|pre + gap| + |th.start|] == th.start;
  }

  // ----- All blocks

  lemma LastBlock(th: Thinking, pre: string, b: Block, tail: Tail, partial: bool, opener: string)
    requires GoodTags(th) && Closes(th, b.text) && AllSpace(b.gap) && TailOk(th, tail) && !tail.Open?
    ensures var input, p := pre + Body(th, [b], tail), Piece(th, opener, b.text, true);
            Blocks(th, input, partial, |pre|, opener) == Parsed(true, |input| - AnswerLength(tail), p.0, p.1)
  {
    hide OneBlock, AfterBlock, Piece, HandleReasoning, Closes, TailOk, AllSpace;
    var front, post := pre + b.text + th.end, b.gap + TailText(th, tail);
    assert pre + Body(th, [b], tail) == front + post == front + b.gap + TailText(th, tail);
    ClosedTurn(th, pre, b.text, post, partial, opener);
    AfterLast(th, front, b.gap, tail, HandleReasoning(th, opener, b.text, true));
    PieceIsHandled(th, opener, b.text, true);
  }

  lemma InnerBlock(th: Thinking, pre: string, b: Block, rest: string, partial: bool, opener: string)
    requires GoodTags(th) && Closes(th, b.text) && AllSpace(b.gap) && (opener == [] || opener == Surfaced(th))
    ensures var front, p := pre + b.text + th.end + b.gap + th.start, Piece(th, opener, b.text, true);
            var q := Blocks(th, front + rest, partial, |front|, Surfaced(th));
            Blocks(th, front + rest, partial, |pre|, opener) == Parsed(true, q.pos, p.0 + q.content, p.1 + q.reasoning)
  {
    hide OneBlock, AfterBlock, Piece, HandleReasoning, Closes, AllSpace;
    var front, post := pre + b.text + th.end, b.gap + (th.start + rest);
    assert front + b.gap + th.start + rest == front + post == front + b.gap + (th.start + rest);
    ClosedTurn(th, pre, b.text, post, partial, opener);
    AfterInner(th, front, b.gap, rest, HandleReasoning(th, opener, b.text, true));
    PieceIsHandled(th, opener, b.text, true);
  }

  lemma BodySplit(th: Thinking, pre: string, blocks: seq<Block>, tail: Tail)
    requires blocks != [] && (|blocks| > 1 || tail.Open?)
    ensures var b := blocks[0];
            pre + Body(th, blocks, tail) == pre + b.text + th.end + b.gap + th.start + Body(th, blocks[1..], tail)
  {
  }

  lemma PiecesOfLast(th: Thinking, opener: string, b: Block, tail: Tail, partial: bool)
    requires !tail.Open?
    ensures Pieces(th, opener, [b], tail, partial) == Piece(th, opener, b.text, true)
  {
    var p := Piece(th, opener, b.text, true);
    assert p.0 + [] == p.0 && p.1 + [] == p.1;
  }

  lemma PiecesSplit(th: Thinking, opener: string, blocks: seq<Block>, tail: Tail, partial: bool)
    requires blocks != []
    ensures var p, q := Piece(th, opener, blocks[0].text, true), Pieces(th, Surfaced(th), blocks[1..], tail, partial);
            Pieces(th, opener, blocks, tail, partial) == (p.0 + q.0, p.1 + q.1)
  {
  }

  lemma BodyOfOpen(th: Thinking, tail: Tail)
    requires tail.Open?
    ensures Body(th, [], tail) == tail.text
  {
  }

  lemma {:induction false} BlocksLaidOut(th: Thinking, pre: string, blocks: seq<Block>, tail: Tail, partial: bool, opener: string)
    requires GoodTags(th) && LaidOut(th, blocks, tail) && (opener == [] || opener == Surfaced(th))
    ensures var input, p := pre + Body(th, blocks, tail), Pieces(th, opener, blocks, tail, partial);
            Blocks(th, input, partial, |pre|, opener) == Parsed(true, |input| - AnswerLength(tail), p.0, p.1)
    decreases |blocks|
  {
    hide Blocks, OneBlock, Piece, Pieces, Closes, AllSpace, HoldBack, Strip, TailOk, Body;
    if blocks == [] {
      assert Body(th, blocks, tail) == tail.text by { BodyOfOpen(th, tail); }
      OpenLaidOut(th, pre, tail.text, partial, opener);
    } else if |blocks| == 1 && !tail.Open? {
      LastBlock(th, pre, blocks[0], tail, partial, opener);
      assert blocks == [blocks[0]];
      PiecesOfLast(th, opener, blocks[0], tail, partial);
    } else {
      var b, rest := blocks[0], blocks[1..];
      BodySplit(th, pre, blocks, tail);
      PiecesSplit(th, opener, blocks, tail, partial);
      assert LaidOut(th, rest, tail);
      var front := pre + b.text + th.end + b.gap + th.start;
      InnerBlock(th, pre, b, Body(th, rest, tail), partial, opener);
      BlocksLaidOut(th, front, rest, tail, partial, Surfaced(th));
    }
  }

  lemma OpenLaidOut(th: Thinking, pre: string, t: string, partial: bool, opener: string)
    requires th.Valid() && TailOk(th, Open(t))
    ensures var input, p := pre + t, Pieces(th, opener, [], Open(t), partial);
            Blocks(th, input, partial, |pre|, opener) == Parsed(true, |input|, p.0, p.1)
  {
    hide OneBlock, HoldBack, Contains;
    if t == [] {
      assert Strip(t[..0]) == [];
    } else {
      OpenTurn(th, pre, t, partial, opener);
    }
  }

  // ----- Every text has a layout

  lemma Splits(s: string, i: nat, n: nat)
    requires i + n <= |s|
    ensures s == s[..i] + s[i..i + n] + s[i + n..]
  {
  }

  lemma CutsAtEnd(th: Thinking, s: string) returns (text: string, rest: string)
    requires th.end != [] && Contains(s, th.end)
    ensures s == text + th.end + rest && Closes(th, text)
  {
    FindFirst(s, th.end, 0);
    var i := Find(s, th.end, 0).value;
    Splits(s, i, |th.end|);
    text, rest := s[..i], s[i + |th.end|..];
    var u := text + th.end;
    assert u == s[..i + |th.end|];
    forall j: nat
      ensures OccursAt(u, th.end, j) <==> OccursAt(s, th.end, j) && j + |th.end| <= |u|
    {
      OccursInPrefix(u, s, th.end, j);
    }
    FindIs(u, th.end, 0, i);
  }

  lemma CutsGap(s: string) returns (gap: string, rest: string)
    ensures s == gap + rest && AllSpace(gap) && (rest != [] ==> !IsSpace(rest[0]))
  {
    SkipsSpaces(s, 0);
    var i := SkipSpaces(s, 0);
    gap, rest := s[..i], s[i..];
  }

  lemma {:induction false} LayOut(th: Thinking, s: string) returns (blocks: seq<Block>, tail: Tail)
    requires GoodTags(th)
    ensures LaidOut(th, blocks, tail) && Body(th, blocks, tail) == s
    decreases |s|
  {
    hide Contains, Closes, AllSpace, Begins;
    if !Contains(s, th.end) {
      blocks, tail := [], Open(s);
    } else {
      var text, later := CutsAtEnd(th, s);
      var gap, rest := CutsGap(later);
      var b := Block(text, gap);
      assert text + th.end + gap + rest == s;
      if rest == [] || !Begins(th, rest) {
        blocks, tail := [b], Answer(rest);
      } else if |rest| < |th.start| {
        assert rest <= th.start by { BeginsShort(th, rest); }
        blocks, tail := [b], CutStart(|rest|);
      } else {
        BeginsLong(th, rest);
        var more;
        more, tail := LayOut(th, rest[|th.start|..]);
        blocks := [b] + more;
        assert blocks[1..] == more;
        assert s == text + th.end + gap + (th.start + Body(th, more, tail));
      }
    }
  }

  lemma BeginsShort(th: Thinking, s: string)
    requires Begins(th, s) && |s| < |th.start|
    ensures s == th.start[..|s|]
  {
  }

  lemma BeginsLong(th: Thinking, s: string)
    requires Begins(th, s) && |th.start| <= |s|
    ensures s == th.start + s[|th.start|..]
  {
  }

  // ----- The whole text

  /** How a text is read: all of it is content, or reasoning begins with its tag, or without it where thinking is forced
      open, or it is the beginning of the start tag. */
  datatype Reading =
    | Content(lead: string, rest: string)
    | Tagged(lead: string, blocks: seq<Block>, tail: Tail)
    | Forced(lead: string, blocks: seq<Block>, tail: Tail)
    | Cut(lead: string, n: nat)

  /** Neither white space nor a start tag comes first. */
  predicate Untagged(th: Thinking, s: string) {
    s == [] || (!IsSpace(s[0]) && !Begins(th, s))
  }

  predicate Reads(th: Thinking, r: Reading, input: string) {
    && AllSpace(r.lead)
    && match r
       case Content(lead, rest) =>
         && input == lead + rest
         && (th.syntax.format == NoReasoning || (!th.syntax.forcedOpen && Untagged(th, rest)))
       case Tagged(lead, blocks, tail) =>
         th.syntax.format != NoReasoning && LaidOut(th, blocks, tail) && input == lead + th.start + Body(th, blocks, tail)
       case Forced(lead, blocks, tail) =>
         && th.syntax.format != NoReasoning && th.syntax.forcedOpen && LaidOut(th, blocks, tail)
         && input == lead + Body(th, blocks, tail) && Untagged(th, Body(th, blocks, tail))
       case Cut(lead, n) =>
         th.syntax.format != NoReasoning && 0 < n < |th.start| && input == lead + th.start[..n]
  }

  /** White space before the start tag is content; where thinking is forced open without the tag it is dropped. */
  function Meaning(th: Thinking, r: Reading, partial: bool): Msg {
    match r
    case Content(lead, rest) => Msg(lead + rest, [], [])
    case Tagged(lead, blocks, tail) => Told(Pieces(th, Surfaced(th), blocks, tail, partial), lead, tail)
    case Forced(_, blocks, tail) => Told(Pieces(th, [], blocks, tail, partial), [], tail)
    case Cut(_, _) => EMPTY_MSG
  }

  /** Where the white space ends, and whether the start tag comes there. */
  lemma LeadIs(th: Thinking, lead: string, rest: string)
    requires AllSpace(lead) && (rest != [] ==> !IsSpace(rest[0]))
    ensures SkipSpaces(lead + rest, 0) == |lead|
    ensures StartsHere(th, lead + rest, |lead|) <==> Begins(th, rest)
    ensures StartRoom(th, lead + rest, |lead|) == if |th.start| < |rest| then |th.start| else |rest|
  {
    hide SkipSpaces, StartsHere, StartRoom, Begins, AllSpace;
    SkipsGap([], lead, rest);
    assert [] + lead + rest == lead + rest && [] + lead == lead;
    StartsHereIs(th, lead, rest);
  }

  lemma Answered(r: Parsed, input: string, p: (string, string), lead: string, tail: Tail)
    requires EndsWith(input, if tail.Answer? then tail.content else [])
    requires r == Parsed(true, |input| - AnswerLength(tail), lead + p.0, p.1)
    ensures Msg(r.content + input[r.pos..], r.reasoning, []) == Told(p, lead, tail)
  {
  }

  lemma {:induction false} BodyEnds(th: Thinking, pre: string, blocks: seq<Block>, tail: Tail)
    requires blocks == [] ==> tail.Open?
    ensures EndsWith(pre + Body(th, blocks, tail), if tail.Answer? then tail.content else [])
    decreases |blocks|
  {
    hide Body;
    if tail.Answer? {
      if |blocks| == 1 {
        assert Body(th, blocks, tail) == blocks[0].text + th.end + blocks[0].gap + tail.content by { BodyOfLast(th, blocks, tail); }
      } else {
        BodySplit(th, pre, blocks, tail);
        var b := blocks[0];
        BodyEnds(th, pre + b.text + th.end + b.gap + th.start, blocks[1..], tail);
      }
    }
  }

  lemma BodyOfLast(th: Thinking, blocks: seq<Block>, tail: Tail)
    requires |blocks| == 1 && !tail.Open?
    ensures Body(th, blocks, tail) == blocks[0].text + th.end + blocks[0].gap + TailText(th, tail)
  {
  }

  lemma LastIsOpen(th: Thinking, blocks: seq<Block>, tail: Tail)
    requires LaidOut(th, blocks, tail)
    ensures blocks == [] ==> tail.Open?
  {
  }

  lemma TaggedOpens(th: Thinking, lead: string, body: string, partial: bool)
    requires GoodTags(th) && th.syntax.format != NoReasoning && AllSpace(lead)
    ensures var input := lead + th.start + body;
            var q := Blocks(th, input, partial, |lead + th.start|, Surfaced(th));
            ContentOnly(th, input, partial) == Shown(Parsed(true, q.pos, lead + q.content, q.reasoning), input)
  {
    hide Blocks, AllSpace, StartsHere, SkipSpaces, ContentOnly, Begins;
    var input, rest := lead + th.start + body, th.start + body;
    assert input == lead + rest;
    LeadIs(th, lead, rest);
    assert Begins(th, rest) by { StartBegins(th, body); }
    assert input[|lead|..|lead| + |th.start|] == th.start && input[..|lead|] == lead;
    var q := TaggedShown(th, input, partial);
    assert [] + q.reasoning == q.reasoning;
  }

  lemma StartBegins(th: Thinking, body: string)
    ensures Begins(th, th.start + body)
  {
  }

  lemma TaggedMeans(th: Thinking, lead: string, blocks: seq<Block>, tail: Tail, partial: bool)
    requires GoodTags(th) && Reads(th, Tagged(lead, blocks, tail), lead + th.start + Body(th, blocks, tail))
    ensures ContentOnly(th, lead + th.start + Body(th, blocks, tail), partial) == Meaning(th, Tagged(lead, blocks, tail), partial)
  {
    hide Blocks, Body, Pieces, LaidOut, AllSpace, Told, ContentOnly, GoodTags;
    var pre, p := lead + th.start, Pieces(th, Surfaced(th), blocks, tail, partial);
    var input := pre + Body(th, blocks, tail);
    TaggedOpens(th, lead, Body(th, blocks, tail), partial);
    BlocksLaidOut(th, pre, blocks, tail, partial, Surfaced(th));
    LastIsOpen(th, blocks, tail);
    BodyEnds(th, pre, blocks, tail);
    Answered(Parsed(true, |input| - AnswerLength(tail), lead + p.0, p.1), input, p, lead, tail);
  }

  lemma ForcedMeans(th: Thinking, lead: string, blocks: seq<Block>, tail: Tail, partial: bool)
    requires GoodTags(th) && Reads(th, Forced(lead, blocks, tail), lead + Body(th, blocks, tail))
    ensures ContentOnly(th, lead + Body(th, blocks, tail), partial) == Meaning(th, Forced(lead, blocks, tail), partial)
  {
    hide Blocks, Body, Pieces, LaidOut, AllSpace, StartsHere, SkipSpaces, Told, HandleReasoning, Begins;
    var body := Body(th, blocks, tail);
    var input := lead + body;
    var p := Pieces(th, [], blocks, tail, partial);
    LeadIs(th, lead, body);
    LastIsOpen(th, blocks, tail);
    BodyEnds(th, lead, blocks, tail);
    assert [] + p.0 == p.0;
    if body == [] {
      EmptyBody(th, blocks, tail, partial);
      assert input[0..] == lead;
      BlankHandled(th, lead, !partial);
      assert input[|input|..] == [];
      assert Told(([], []), [], tail) == EMPTY_MSG by { ToldNothing(tail); }
    } else {
      BlocksLaidOut(th, lead, blocks, tail, partial, []);
      Answered(Parsed(true, |input| - AnswerLength(tail), [] + p.0, p.1), input, p, [], tail);
    }
  }

  lemma ToldNothing(tail: Tail)
    requires tail.Answer? ==> tail.content == []
    ensures Told(([], []), [], tail) == EMPTY_MSG
  {
  }

  lemma EmptyBody(th: Thinking, blocks: seq<Block>, tail: Tail, partial: bool)
    requires GoodTags(th) && LaidOut(th, blocks, tail) && Body(th, blocks, tail) == []
    ensures tail == Open([]) && Pieces(th, [], blocks, tail, partial) == ([], [])
  {
    hide Closes;
    if blocks == [] {
      StripBlank([]);
    }
  }

  lemma StripBlank(s: string)
    requires AllSpace(s)
    ensures Strip(s) == []
  {
    hide Strip;
    var _, _ := StripSplits(s);
  }

  lemma BlankHandled(th: Thinking, s: string, closed: bool)
    requires AllSpace(s)
    ensures HandleReasoning(th, [], s, closed) == Emitted([], [], [])
  {
    StripBlank(s);
  }

  lemma CutMeans(th: Thinking, lead: string, n: nat, partial: bool)
    requires GoodTags(th) && n < |th.start| && Reads(th, Cut(lead, n), lead + th.start[..n])
    ensures ContentOnly(th, lead + th.start[..n], partial) == EMPTY_MSG
  {
    hide Blocks, AllSpace, StartsHere, SkipSpaces, HandleReasoning;
    LeadIs(th, lead, th.start[..n]);
  }

  lemma ContentMeans(th: Thinking, lead: string, rest: string, partial: bool)
    requires GoodTags(th) && Reads(th, Content(lead, rest), lead + rest)
    ensures ContentOnly(th, lead + rest, partial) == Msg(lead + rest, [], [])
  {
    hide Blocks, AllSpace, StartsHere, SkipSpaces, HandleReasoning, Begins;
    var input := lead + rest;
    assert [] + input[0..] == input;
    if th.syntax.format != NoReasoning {
      LeadIs(th, lead, rest);
    }
  }

  lemma ReadingMeans(th: Thinking, r: Reading, input: string, partial: bool)
    requires GoodTags(th) && Reads(th, r, input)
    ensures ContentOnly(th, input, partial) == Meaning(th, r, partial)
  {
    hide ContentOnly, Body, Pieces, LaidOut, AllSpace, Begins;
    match r
    case Content(lead, rest) => ContentMeans(th, lead, rest, partial);
    case Tagged(lead, blocks, tail) => TaggedMeans(th, lead, blocks, tail, partial);
    case Forced(lead, blocks, tail) => ForcedMeans(th, lead, blocks, tail, partial);
    case Cut(lead, n) => CutMeans(th, lead, n, partial);
  }

  /** try_parse_reasoning answers whether there is reasoning, or a tag that may begin it. */
  lemma AnswerIs(th: Thinking, r: Reading, input: string, partial: bool)
    requires GoodTags(th) && Reads(th, r, input)
    ensures Reasoning(th, input, partial, 0).ok <==> !r.Content?
  {
    hide Blocks, Body, LaidOut, AllSpace, StartsHere, SkipSpaces, HandleReasoning, Begins;
    match r
    case Content(lead, rest) => if th.syntax.format != NoReasoning { LeadIs(th, lead, rest); }
    case Tagged(lead, blocks, tail) =>
      var rest := th.start + Body(th, blocks, tail);
      assert input == lead + rest;
      LeadIs(th, lead, rest);
      StartBegins(th, Body(th, blocks, tail));
    case Forced(lead, blocks, tail) => LeadIs(th, lead, Body(th, blocks, tail));
    case Cut(lead, n) =>
      LeadIs(th, lead, th.start[..n]);
      assert Begins(th, th.start[..n]) by { CutBegins(th, n); }
  }

  lemma CutBegins(th: Thinking, n: nat)
    requires n <= |th.start|
    ensures Begins(th, th.start[..n])
  {
  }

  /** Main result: every text can be read, and whatever the flags, the message is the meaning of any reading of it. */
  lemma ContentOnlyExact(th: Thinking, input: string, partial: bool) returns (r: Reading)
    requires GoodTags(th)
    ensures Reads(th, r, input)
    ensures Reasoning(th, input, partial, 0).ok <==> !r.Content?
    ensures ContentOnly(th, input, partial) == Meaning(th, r, partial)
    ensures forall q :: Reads(th, q, input) ==> Meaning(th, q, partial) == Meaning(th, r, partial)
  {
    hide ContentOnly, Reasoning, Body, Pieces, LaidOut, AllSpace, Begins, Meaning;
    var lead, rest := CutsGap(input);
    if th.syntax.format == NoReasoning {
      r := Content(lead, rest);
    } else if rest != [] && Begins(th, rest) {
      if |rest| < |th.start| {
        BeginsShort(th, rest);
        r := Cut(lead, |rest|);
      } else {
        BeginsLong(th, rest);
        var blocks, tail := LayOut(th, rest[|th.start|..]);
        assert input == lead + th.start + rest[|th.start|..];
        r := Tagged(lead, blocks, tail);
      }
    } else if th.syntax.forcedOpen {
      var blocks, tail := LayOut(th, rest);
      r := Forced(lead, blocks, tail);
    } else {
      r := Content(lead, rest);
    }
    AnswerIs(th, r, input, partial);
    forall q | Reads(th, q, input)
      ensures Meaning(th, q, partial) == ContentOnly(th, input, partial)
    {
      ReadingMeans(th, q, input, partial);
    }
  }

  // ----- Blocks as a model writes them

  /** The block carries no space at its ends and does not let the end tag begin early. */
  predicate CleanBlock(th: Thinking, block: string) {
    block != [] && !IsSpace(block[0]) && !IsSpace(block[|block| - 1]) && Closes(th, block)
  }

  /** The part of a cut-off block that is shown: without the beginning of the end tag. */
  function ShownPart(th: Thinking, r: string): string {
    Strip(r[..HoldBack(r, th.end, 0)])
  }

  /** A block whose end tag has not come. The final parse closes it, unless it seems to end in an end tag. */
  function OpenMessage(th: Thinking, opener: string, r: string, partial: bool): Msg {
    var t := ShownPart(th, r);
    if t == [] then EMPTY_MSG
    else if th.syntax.inContent then
      Msg(th.Opening() + t + (if !partial && HoldBack(r, th.end, 0) == |r| then th.Closing() else []), [], [])
    else Msg([], opener + t, [])
  }

  lemma OpenIsMessage(th: Thinking, opener: string, r: string, partial: bool)
    ensures Told(Pieces(th, opener, [], Open(r), partial), [], Open(r)) == OpenMessage(th, opener, r, partial)
  {
    hide Strip, HoldBack;
    var p := Pieces(th, opener, [], Open(r), partial);
    assert [] + p.0 + [] == p.0;
  }

  lemma NoEndYet(th: Thinking, b: string, n: nat)
    requires Closes(th, b) && n < |b + th.end|
    ensures !Contains((b + th.end)[..n], th.end)
  {
    hide Find;
    var u := b + th.end;
    var r := u[..n];
    FindFirst(u, th.end, 0);
    forall j: nat
      ensures !OccursAt(r, th.end, j)
    {
      OccursInPrefix(r, u, th.end, j);
    }
  }

  /** While a block arrives behind its start tag, everything of it is shown that cannot belong to the end tag. */
  lemma OpenBlock(th: Thinking, b: string, n: nat, partial: bool)
    requires GoodTags(th) && th.syntax.format != NoReasoning && Closes(th, b) && n < |b + th.end|
    ensures ContentOnly(th, th.start + (b + th.end)[..n], partial) == OpenMessage(th, Surfaced(th), (b + th.end)[..n], partial)
  {
    hide ContentOnly, Contains, Closes, OpenMessage, Pieces, Told;
    var r := (b + th.end)[..n];
    NoEndYet(th, b, n);
    assert [] + th.start + r == th.start + r;
    BodyOfOpen(th, Open(r));
    TaggedMeans(th, [], [], Open(r), partial);
    OpenIsMessage(th, Surfaced(th), r, partial);
  }

  /** The same where thinking is forced open and there is no start tag, which then is not made up either. */
  lemma OpenForced(th: Thinking, b: string, n: nat, partial: bool)
    requires GoodTags(th) && th.syntax.format != NoReasoning && th.syntax.forcedOpen && Closes(th, b) && n < |b + th.end|
    requires Untagged(th, (b + th.end)[..n])
    ensures ContentOnly(th, (b + th.end)[..n], partial) == OpenMessage(th, [], (b + th.end)[..n], partial)
  {
    hide ContentOnly, Contains, Closes, OpenMessage, Pieces, Told, Untagged;
    var r := (b + th.end)[..n];
    NoEndYet(th, b, n);
    assert [] + r == r;
    BodyOfOpen(th, Open(r));
    ForcedMeans(th, [], [], Open(r), partial);
    OpenIsMessage(th, [], r, partial);
  }

  /** An answer that is cut off while thinking keeps all of its reasoning. */
  lemma FinalKeepsReasoning(th: Thinking, b: string)
    requires GoodTags(th) && th.syntax.format != NoReasoning && CleanBlock(th, b) && HoldBack(b, th.end, 0) == |b|
    ensures ContentOnly(th, th.start + b, false) ==
            if th.syntax.inContent then Msg(th.Opening() + b + th.Closing(), [], []) else Msg([], Surfaced(th) + b, [])
  {
    hide ContentOnly, Closes, HoldBack, Strip;
    assert (b + th.end)[..|b|] == b && b[..|b|] == b;
    OpenBlock(th, b, |b|, false);
    StripOf([], b, []);
    assert [] + b + [] == b;
  }

  // ----- Round trip

  /** Reasoning blocks and content as a model writes them, from behind the first start tag on. */
  function Rendered(th: Thinking, blocks: seq<string>, content: string): string
    requires blocks != []
  {
    blocks[0] + th.end + (if |blocks| == 1 then content else th.start + Rendered(th, blocks[1..], content))
  }

  /** Content that cannot be taken for spaces or for another start tag. */
  predicate CleanContent(th: Thinking, content: string) {
    content != [] ==> !IsSpace(content[0]) && !Begins(th, content)
  }

  /** All blocks, each with what the parser puts around it. */
  function Wrapped(open: string, blocks: seq<string>, close: string): string {
    if blocks == [] then [] else open + blocks[0] + close + Wrapped(open, blocks[1..], close)
  }

  function Tight(blocks: seq<string>): (r: seq<Block>)
    ensures |r| == |blocks|
  {
    seq(|blocks|, i requires 0 <= i < |blocks| => Block(blocks[i], []))
  }

  lemma {:induction false} RenderedIsBody(th: Thinking, blocks: seq<string>, content: string)
    requires blocks != []
    ensures Body(th, Tight(blocks), Answer(content)) == Rendered(th, blocks, content)
    decreases |blocks|
  {
    hide Body;
    var ts := Tight(blocks);
    var b := blocks[0];
    if |blocks| == 1 {
      BodyOfLast(th, ts, Answer(content));
      assert b + th.end + [] + content == b + th.end + content;
    } else {
      assert ts[1..] == Tight(blocks[1..]);
      BodySplit(th, [], ts, Answer(content));
      RenderedIsBody(th, blocks[1..], content);
      var rest := Rendered(th, blocks[1..], content);
      assert [] + b + th.end + [] + th.start + rest == b + th.end + (th.start + rest);
      assert [] + Body(th, ts, Answer(content)) == Body(th, ts, Answer(content));
    }
  }

  lemma CleanPiece(th: Thinking, opener: string, b: string)
    requires CleanBlock(th, b)
    ensures Piece(th, opener, b, true) == if th.syntax.inContent then (th.Opening() + b + th.Closing(), []) else ([], opener + b)
  {
    hide Strip, Closes;
    StripOf([], b, []);
    assert [] + b + [] == b;
  }

  lemma {:induction false} PiecesWrapped(th: Thinking, opener: string, blocks: seq<string>, content: string, partial: bool)
    requires blocks != [] && forall b <- blocks :: CleanBlock(th, b)
    ensures Pieces(th, opener, Tight(blocks), Answer(content), partial) ==
            if th.syntax.inContent then (Wrapped(th.Opening(), blocks, th.Closing()), [])
            else ([], opener + blocks[0] + Wrapped(Surfaced(th), blocks[1..], []))
    decreases |blocks|
  {
    hide Piece, Pieces, CleanBlock;
    var ts, a := Tight(blocks), Answer(content);
    var rest, s, p := blocks[1..], Surfaced(th), Piece(th, opener, blocks[0], true);
    CleanPiece(th, opener, blocks[0]);
    if rest == [] {
      assert ts == [Block(blocks[0], [])];
      PiecesOfLast(th, opener, ts[0], a, partial);
      assert p.0 + [] == p.0 && p.1 + [] == p.1;
    } else {
      PiecesSplit(th, opener, ts, a, partial);
      assert ts[1..] == Tight(rest);
      PiecesWrapped(th, s, rest, content, partial);
      WrappedSplit(s, rest);
      var none: string := [];
      assert none + none == none;
    }
  }

  lemma WrappedSplit(s: string, blocks: seq<string>)
    requires blocks != []
    ensures Wrapped(s, blocks, []) == s + blocks[0] + Wrapped(s, blocks[1..], [])
  {
    assert s + blocks[0] + [] == s + blocks[0];
  }

  lemma TightLaidOut(th: Thinking, blocks: seq<string>, content: string)
    requires (forall b <- blocks :: CleanBlock(th, b)) && CleanContent(th, content) && blocks != []
    ensures LaidOut(th, Tight(blocks), Answer(content))
  {
    hide Closes, Begins;
    forall b | b in Tight(blocks)
      ensures Closes(th, b.text) && AllSpace(b.gap)
    {
      var i :| 0 <= i < |blocks| && b == Tight(blocks)[i];
      assert blocks[i] in blocks;
    }
  }

  /** Round trip: a text of tagged reasoning blocks followed by content parses back into exactly those blocks and
      that content. Forced-open thinking surfaces every start tag; inlined reasoning is re-wrapped in tags. */
  lemma ReasoningRoundTrip(th: Thinking, blocks: seq<string>, content: string, partial: bool)
    requires GoodTags(th) && th.syntax.format != NoReasoning
    requires blocks != [] && (forall b <- blocks :: CleanBlock(th, b)) && CleanContent(th, content)
    ensures ContentOnly(th, th.start + Rendered(th, blocks, content), partial) ==
            if th.syntax.inContent then Msg(Wrapped(th.Opening(), blocks, th.Closing()) + content, [], [])
            else Msg(content, Wrapped(Surfaced(th), blocks, []), [])
  {
    hide ContentOnly, CleanBlock, CleanContent, Rendered, Body, Pieces, LaidOut, Wrapped;
    TightLaidOut(th, blocks, content);
    RenderedIsBody(th, blocks, content);
    var body := Rendered(th, blocks, content);
    assert [] + th.start + body == th.start + body;
    TaggedMeans(th, [], Tight(blocks), Answer(content), partial);
    PiecesWrapped(th, Surfaced(th), blocks, content, partial);
    WrappedSplit(Surfaced(th), blocks);
    var w := Wrapped(th.Opening(), blocks, th.Closing());
    assert [] + w == w && [] + [] + content == content;
  }
}

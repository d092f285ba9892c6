/** The editor as console.cpp runs it: byte positions, loops and a terminal cursor, proved to do what LineEditor says. */
module Console {
  import opened Text
  import opened Utf8
  import opened LineEditor

  function Sum(ws: seq<nat>): nat {
    if ws == [] then 0 else Sum(ws[..|ws| - 1]) + ws[|ws| - 1]
  }

  lemma {:induction false} SumConcat(a: seq<nat>, b: seq<nat>)
    ensures Sum(a + b) == Sum(a) + Sum(b)
    decreases |b|
  {
    if b == [] {
      assert a + b == a;
    } else {
      var c := b[..|b| - 1];
      assert (a + b)[..|a + b| - 1] == a + c;
      SumConcat(a, c);
    }
  }

  lemma SumStep(ws: seq<nat>, i: nat)
    requires i < |ws|
    ensures Sum(ws[..i + 1]) == Sum(ws[..i]) + ws[i]
  {
    assert ws[..i + 1][..i] == ws[..i];
  }

  lemma NoWidths(ws: seq<nat>, i: nat)
    requires i <= |ws|
    ensures Sum(ws[i..i]) == 0 && Sum(ws[..0]) == 0
  {
  }

  lemma SumFrom(ws: seq<nat>, i: nat, j: nat)
    requires i <= j < |ws|
    ensures Sum(ws[i..j + 1]) == Sum(ws[i..j]) + ws[j]
  {
    assert ws[i..j + 1][..j - i] == ws[i..j];
  }

  lemma WithoutWidths(ws: seq<nat>, i: nat)
    requires i < |ws|
    ensures |Without<nat>(ws, i)| == |ws| - 1 && Without<nat>(ws, i)[..i] == ws[..i]
  {
  }

  lemma WithWidths(ws: seq<nat>, i: nat, w: nat)
    requires i <= |ws|
    ensures |With<nat>(ws, i, w)| == |ws| + 1 && With<nat>(ws, i, w)[..i] == ws[..i] && With<nat>(ws, i, w)[i] == w
    ensures i == |ws| ==> With<nat>(ws, i, w) == ws + [w]
  {
  }

  lemma SliceJoin(s: string, a: nat, b: nat, c: nat)
    requires a <= b <= c <= |s|
    ensures s[a..b] + s[b..c] == s[a..c]
  {
  }

  // ----- The line as bytes

  /** Bytes before and behind the cursor. */
  lemma SplitLine(cs: Chars, k: nat)
    requires k <= |cs|
    ensures Offset(cs, k) <= |EncodeAll(cs)|
    ensures EncodeAll(cs)[..Offset(cs, k)] == EncodeAll(cs[..k]) && EncodeAll(cs)[Offset(cs, k)..] == EncodeAll(cs[k..])
  {
    hide EncodeAll;
    assert cs == cs[..k] + cs[k..];
    EncodeAllConcat(cs[..k], cs[k..]);
  }

  lemma InsertBytes(cs: Chars, k: nat, c: CodePoint)
    requires k <= |cs|
    ensures var line, b := EncodeAll(cs), Offset(cs, k);
            && b <= |line|
            && line[..b] + Encode(c) + line[b..] == EncodeAll(With(cs, k, c))
            && |With(cs, k, c)| == |cs| + 1 && Offset(With(cs, k, c), k + 1) == b + |Encode(c)|
  {
    hide EncodeAll, Encode;
    SplitLine(cs, k);
    EncodeOne(c);
    EncodeAllConcat(cs[..k], [c]);
    EncodeAllConcat(cs[..k] + [c], cs[k..]);
    assert With(cs, k, c)[..k + 1] == cs[..k] + [c];
  }

  lemma EraseBytes(cs: Chars, k: nat)
    requires k < |cs|
    ensures var line, b, e := EncodeAll(cs), Offset(cs, k), Offset(cs, k + 1);
            && b <= e <= |line|
            && line[..b] + line[e..] == EncodeAll(Without(cs, k))
            && |Without(cs, k)| == |cs| - 1 && Offset(Without(cs, k), k) == b
  {
    hide EncodeAll;
    SplitLine(cs, k);
    SplitLine(cs, k + 1);
    OffsetMonotone(cs, k, k + 1);
    EncodeAllConcat(cs[..k], cs[k + 1..]);
    assert Without(cs, k)[..k] == cs[..k];
  }

  lemma LastOffset(cs: Chars)
    ensures Offset(cs, |cs|) == |EncodeAll(cs)|
  {
    assert cs[..|cs|] == cs;
  }

  lemma FirstOffset(cs: Chars)
    ensures Offset(cs, 0) == 0
  {
    assert cs[..0] == [];
  }

  // ----- History

  class History {
    var entries: seq<string>
    var viewing: Option<nat>
    var backup: string

    ghost predicate Holds(past: seq<Chars>, saved: Chars)
      reads this
    {
      && |entries| == |past| && (forall i :: 0 <= i < |past| ==> entries[i] == EncodeAll(past[i]))
      && backup == EncodeAll(saved)
      && (viewing.Some? ==> viewing.value <= |entries|)
    }

    constructor ()
      ensures Holds([], []) && viewing.None? && entries == []
    {
      entries, viewing, backup := [], None, [];
    }

    method BeginViewing(line: string)
      modifies this
      ensures entries == old(entries) && backup == line && viewing == Some(|entries|)
    {
      backup := line;
      viewing := Some(|entries|);
    }

    method EndViewing()
      modifies this
      ensures entries == old(entries) && backup == [] && viewing == None
    {
      viewing := None;
      backup := [];
    }

    /** The last entry is not repeated. */
    method Add(line: string)
      modifies this
      ensures line == [] ==> entries == old(entries) && viewing == old(viewing) && backup == old(backup)
      ensures line != [] ==> viewing == None && backup == []
      ensures line != [] ==> entries == if old(entries) != [] && old(entries)[|old(entries)| - 1] == line then old(entries)
                                        else old(entries) + [line]
    {
      if line == [] { return; }
      if entries == [] || entries[|entries| - 1] != line {
        entries := entries + [line];
      }
      EndViewing();
    }

    method Prev() returns (shown: Option<string>)
      requires viewing.Some? ==> viewing.value <= |entries|
      modifies this
      ensures entries == old(entries) && backup == old(backup)
      ensures shown.None? <==> entries == [] || old(viewing).None?
      ensures shown.None? ==> viewing == old(viewing)
      ensures shown.Some? ==>
                && viewing == Some(if old(viewing).value > 0 then old(viewing).value - 1 else 0)
                && viewing.value < |entries| && shown.value == entries[viewing.value]
    {
      if entries == [] { return None; }
      if viewing.None? { return None; }
      if viewing.value > 0 {
        viewing := Some(viewing.value - 1);
      }
      return Some(entries[viewing.value]);
    }

    method Next() returns (shown: Option<string>)
      modifies this
      ensures entries == old(entries)
      ensures shown.None? <==> entries == [] || old(viewing).None?
      ensures shown.None? ==> viewing == old(viewing) && backup == old(backup)
      ensures shown.Some? ==>
                var i := old(viewing).value + 1;
                if i >= |entries| then shown.value == old(backup) && viewing == None && backup == []
                else shown.value == entries[i] && viewing == Some(i) && backup == old(backup)
    {
      if entries == [] || viewing.None? { return None; }
      viewing := Some(viewing.value + 1);
      if viewing.value >= |entries| {
        shown := Some(backup);
        EndViewing();
      } else {
        shown := Some(entries[viewing.value]);
      }
    }
  }

  // ----- The editor

  class Editor {
    const term: Terminal
    const history: History
    /** The column where the line begins. */
    ghost const origin: int

    var line: string
    var widths: seq<nat>
    var charPos: nat
    var bytePos: nat
    /** The column of the terminal's cursor, counted through line wraps. */
    var col: int

    ghost var chars: Chars
    ghost var past: seq<Chars>
    ghost var saved: Chars

    /** The line is the encoding of as many characters as there are widths, the byte position is that of the character
        position, and the terminal's cursor stands behind the characters before it. */
    ghost predicate Valid()
      reads this, history
    {
      && line == EncodeAll(chars) && |widths| == |chars| && charPos <= |chars|
      && bytePos == Offset(chars, charPos)
      && col == origin + Sum(widths[..charPos])
      && history.Holds(past, saved)
    }

    ghost function Abs(): State
      reads this, history
    {
      State(chars, widths, charPos, past, history.viewing, saved)
    }

    /** A new line; the history is as the last one left it. */
    constructor (t: Terminal, h: History, start: int, ghost entries: seq<Chars>, ghost kept: Chars)
      requires h.Holds(entries, kept)
      ensures Valid() && term == t && history == h && origin == start
      ensures Abs() == State([], [], 0, entries, h.viewing, kept)
    {
      term, history, origin := t, h, start;
      line, widths, charPos, bytePos, col := [], [], 0, 0, start;
      chars, past, saved := [], entries, kept;
    }

    method MoveCursor(delta: int)
      modifies this`col
      ensures col == old(col) + delta
    {
      col := col + delta;
    }

    /** Draw the characters from `from` on again; each takes the width it took before. */
    method DrawTail(from: nat, at: nat) returns (width: nat, drawn: string)
      requires line == EncodeAll(chars) && |widths| == |chars| && from <= |chars| && at == Offset(chars, from)
      modifies this`col
      ensures width == Sum(widths[from..]) && col == old(col) + width
      ensures at <= |line| && drawn == line[at..]
    {
      hide EncodeAll, Encode, Offset, Sum, Without, With, Showing, Older, Newer, WordStart, NextWord, History.Holds, Prev, Next;
      SplitLine(chars, from);
      var p, i := at, from;
      width, drawn := 0, [];
      NoWidths(widths, from);
      while i < |widths|
        invariant from <= i <= |widths| && p == Offset(chars, i) && at <= p <= |line|
        invariant width == Sum(widths[from..i]) && col == old(col) + width && drawn == line[at..p]
      {
        PrevNextInverse(chars, i);
        var next := NextCharPos(line, p);
        drawn := drawn + line[p..next];
        SliceJoin(line, at, p, next);
        SumFrom(widths, from, i);
        col := col + widths[i];
        width := width + widths[i];
        p := next;
        i := i + 1;
      }
      LastOffset(chars);
      assert widths[from..|widths|] == widths[from..];
      assert line[at..|line|] == line[at..];
    }

    method PutSpaces(n: nat)
      modifies this`col
      ensures col == old(col) + n
    {
      for i := 0 to n
        invariant col == old(col) + i
      {
        col := col + 1;
      }
    }

    /** delete_at_cursor. */
    method DeleteAtCursor()
      requires Valid()
      modifies this
      ensures Valid() && Abs() == Apply(term, old(Abs()), Delete)
    {
      hide EncodeAll, Encode, Offset, Sum, Without, With, Showing, Older, Newer, WordStart, NextWord, History.Holds, Prev, Next;
      if charPos >= |widths| { return; }
      EraseBytes(chars, charPos);
      PrevNextInverse(chars, charPos);
      var nextPos := NextCharPos(line, bytePos);
      var w := widths[charPos];
      line := line[..bytePos] + line[nextPos..];
      WithoutWidths(widths, charPos);
      widths := Without<nat>(widths, charPos);
      chars := Without(chars, charPos);
      var tail, _ := DrawTail(charPos, bytePos);
      PutSpaces(w);
      MoveCursor(-(tail as int) - (w as int));
    }

    method BackspaceKey()
      requires Valid()
      modifies this
      ensures Valid() && Abs() == Apply(term, old(Abs()), Backspace)
    {
      hide EncodeAll, Encode, Offset, Sum, Without, With, Showing, Older, Newer, WordStart, NextWord, History.Holds, Prev, Next;
      if charPos == 0 { return; }
      EraseBytes(chars, charPos - 1);
      PrevNextInverse(chars, charPos - 1);
      SumStep(widths, charPos - 1);
      var w := widths[charPos - 1];
      MoveCursor(-(w as int));
      charPos := charPos - 1;
      var prevPos := PrevCharPos(line, bytePos);
      line := line[..prevPos] + line[bytePos..];
      bytePos := prevPos;
      WithoutWidths(widths, charPos);
      widths := Without<nat>(widths, charPos);
      chars := Without(chars, charPos);
      var tail, _ := DrawTail(charPos, bytePos);
      PutSpaces(w);
      MoveCursor(-(tail as int) - (w as int));
    }

    method InsertKey(c: CodePoint)
      requires Valid()
      modifies this
      ensures Valid() && Abs() == Apply(term, old(Abs()), Insert(c))
    {
      hide EncodeAll, Encode, Offset, Sum, Without, With, Showing, Older, Newer, WordStart, NextWord, History.Holds, Prev, Next;
      var s := Encode(c);
      var w: nat := if term.measure(c) < 0 then 0 else term.measure(c);
      InsertBytes(chars, charPos, c);
      WithWidths(widths, charPos, w);
      if charPos == |widths| {
        LastOffset(chars);
        line := line + s;
        col := col + w;
        widths := widths + [w];
      } else {
        line := line[..bytePos] + s + line[bytePos..];
        col := col + w;
        widths := With<nat>(widths, charPos, w);
      }
      chars := With(chars, charPos, c);
      SumStep(widths, charPos);
      if charPos + 1 < |widths| {
        var tail, _ := DrawTail(charPos + 1, bytePos + |s|);
        MoveCursor(-(tail as int));
      }
      bytePos := bytePos + |s|;
      charPos := charPos + 1;
      assert line == EncodeAll(chars);
    }

    method LeftKey()
      requires Valid()
      modifies this
      ensures Valid() && Abs() == Apply(term, old(Abs()), Left)
    {
      hide EncodeAll, Encode, Offset, Sum, Without, With, Showing, Older, Newer, WordStart, NextWord, History.Holds, Prev, Next;
      if charPos == 0 { return; }
      PrevNextInverse(chars, charPos - 1);
      SumStep(widths, charPos - 1);
      MoveCursor(-(widths[charPos - 1] as int));
      charPos := charPos - 1;
      bytePos := PrevCharPos(line, bytePos);
    }

    method RightKey()
      requires Valid()
      modifies this
      ensures Valid() && Abs() == Apply(term, old(Abs()), Right)
    {
      hide EncodeAll, Encode, Offset, Sum, Without, With, Showing, Older, Newer, WordStart, NextWord, History.Holds, Prev, Next;
      if charPos >= |widths| { return; }
      PrevNextInverse(chars, charPos);
      SumStep(widths, charPos);
      MoveCursor(widths[charPos]);
      charPos := charPos + 1;
      bytePos := NextCharPos(line, bytePos);
    }

    /** move_to_line_start. */
    method MoveToLineStart()
      requires Valid()
      modifies this
      ensures Valid() && Abs() == Apply(term, old(Abs()), Home)
    {
      hide EncodeAll, Encode, Offset, Sum, Without, With, Showing, Older, Newer, WordStart, NextWord, History.Holds, Prev, Next;
      var back: nat, i := 0, 0;
      NoWidths(widths, 0);
      while i < charPos
        invariant 0 <= i <= charPos && back == Sum(widths[..i])
        modifies {}
      {
        SumStep(widths, i);
        back := back + widths[i];
        i := i + 1;
      }
      MoveCursor(-(back as int));
      charPos, bytePos := 0, 0;
      FirstOffset(chars);
      NoWidths(widths, 0);
    }

    /** move_to_line_end. */
    method MoveToLineEnd()
      requires Valid()
      modifies this
      ensures Valid() && Abs() == Apply(term, old(Abs()), End)
    {
      hide EncodeAll, Encode, Offset, Sum, Without, With, Showing, Older, Newer, WordStart, NextWord, History.Holds, Prev, Next;
      var forward: nat, i := 0, charPos;
      while i < |widths|
        invariant charPos <= i <= |widths| && Sum(widths[..charPos]) + forward == Sum(widths[..i])
        modifies {}
      {
        SumStep(widths, i);
        forward := forward + widths[i];
        i := i + 1;
      }
      MoveCursor(forward);
      charPos := |widths|;
      bytePos := |line|;
      LastOffset(chars);
    }

    /** One loop of move_word_left: step back over characters of one kind. */
    method StepsLeft(cp: nat, bp: nat, sp: bool) returns (cp': nat, bp': nat, moved: nat)
      requires Valid() && cp <= |chars| && bp == Offset(chars, cp)
      ensures cp' == SkipLeft(term, chars, cp, sp) && cp' <= cp && bp' == Offset(chars, cp')
      ensures Sum(widths[..cp']) + moved == Sum(widths[..cp])
    {
      hide EncodeAll, Encode, Offset, Sum, Decode, History.Holds;
      cp', bp', moved := cp, bp, 0;
      while cp' > 0
        invariant cp' <= cp && bp' == Offset(chars, cp') && Sum(widths[..cp']) + moved == Sum(widths[..cp])
        invariant SkipLeft(term, chars, cp', sp) == SkipLeft(term, chars, cp, sp)
      {
        PrevNextInverse(chars, cp' - 1);
        var prevByte := PrevCharPos(line, bp');
        DecodeAt(chars, cp' - 1);
        var c := Decode(line, prevByte).0;
        if term.space(c) != sp { break; }
        SumStep(widths, cp' - 1);
        moved := moved + widths[cp' - 1];
        cp' := cp' - 1;
        bp' := prevByte;
      }
    }

    /** One loop of move_word_right. */
    method StepsRight(cp: nat, bp: nat, sp: bool) returns (cp': nat, bp': nat, moved: nat)
      requires Valid() && cp <= |chars| && bp == Offset(chars, cp)
      ensures cp' == SkipRight(term, chars, cp, sp) && cp <= cp' <= |chars| && bp' == Offset(chars, cp')
      ensures Sum(widths[..cp']) == Sum(widths[..cp]) + moved
    {
      hide EncodeAll, Encode, Offset, Sum, Decode, History.Holds;
      cp', bp', moved := cp, bp, 0;
      while cp' < |widths|
        invariant cp <= cp' <= |widths| && bp' == Offset(chars, cp') && Sum(widths[..cp']) == Sum(widths[..cp]) + moved
        invariant SkipRight(term, chars, cp', sp) == SkipRight(term, chars, cp, sp)
      {
        DecodeAt(chars, cp');
        OffsetStep(chars, cp');
        var d := Decode(line, bp');
        if term.space(d.0) != sp { break; }
        SumStep(widths, cp');
        moved := moved + widths[cp'];
        cp' := cp' + 1;
        bp' := bp' + d.1;
      }
    }

    /** move_word_left. */
    method MoveWordLeft()
      requires Valid()
      modifies this
      ensures Valid() && Abs() == Apply(term, old(Abs()), WordLeft)
    {
      hide EncodeAll, Encode, Offset, Sum;
      if charPos == 0 { return; }
      var c1, b1, w1 := StepsLeft(charPos, bytePos, true);
      var c2, b2, w2 := StepsLeft(c1, b1, false);
      MoveCursor(-(w1 as int) - (w2 as int));
      charPos, bytePos := c2, b2;
    }

    /** move_word_right. */
    method MoveWordRight()
      requires Valid()
      modifies this
      ensures Valid() && Abs() == Apply(term, old(Abs()), WordRight)
    {
      hide EncodeAll, Encode, Offset, Sum;
      if charPos >= |widths| { return; }
      var c1, b1, w1 := StepsRight(charPos, bytePos, true);
      var c2, b2, w2 := StepsRight(c1, b1, false);
      var c3, b3, w3 := StepsRight(c2, b2, true);
      MoveCursor(w1 + w2 + w3);
      charPos, bytePos := c3, b3;
    }

    /** clear_current_line: the cursor ends where it was. */
    method ClearCurrentLine()
      modifies this`col
      ensures col == old(col)
    {
      var total: nat := 0;
      for i := 0 to |widths|
        modifies {}
      {
        total := total + if widths[i] > 0 then widths[i] else 1;
      }
      if total > 0 {
        PutSpaces(total);
        MoveCursor(-(total as int));
      }
    }

    /** set_line_contents: decode the new line and draw it. */
    method SetLineContents(newLine: string, ghost cs: Chars)
      requires Valid() && newLine == EncodeAll(cs)
      modifies this
      ensures Valid() && Abs() == Showing(term, old(Abs()), cs)
    {
      hide EncodeAll, Encode, Offset, Sum, Decode, History.Holds;
      MoveToLineStart();
      ClearCurrentLine();
      NoWidths(widths, 0);
      line := newLine;
      widths, bytePos, charPos := [], 0, 0;
      chars := cs;
      FirstOffset(cs);
      LastOffset(cs);
      NoWidths([], 0);
      var idx := 0;
      while idx < |line|
        invariant line == newLine && chars == cs && charPos <= |cs| && |widths| == charPos
        invariant idx == bytePos == Offset(cs, charPos) <= |line|
        invariant forall i :: 0 <= i < charPos ==> widths[i] == term.Width(cs[i])
        invariant col == origin + Sum(widths)
        invariant past == old(past) && saved == old(saved)
        decreases |line| - idx
      {
        if charPos == |cs| {
          assert false;
        }
        CharRead(cs, charPos);
        var d := Decode(line, idx);
        var w: nat := if term.measure(d.0) < 0 then 0 else term.measure(d.0);
        AppendWidth(widths, w);
        col := col + w;
        widths := widths + [w];
        idx := idx + d.1;
        charPos := charPos + 1;
        bytePos := idx;
      }
      AtEnd(cs, charPos);
      assert widths[..charPos] == widths;
    }

    /** The up key. */
    method HistoryPrev()
      requires Valid()
      modifies this, history
      ensures Valid() && Abs() == Apply(term, old(Abs()), Up)
    {
      hide EncodeAll, Offset, Sum, Showing;
      if history.viewing.None? {
        history.BeginViewing(line);
        saved := chars;
      }
      var shown := history.Prev();
      if shown.None? { return; }
      SetLineContents(shown.value, past[history.viewing.value]);
    }

    /** The down key. */
    method HistoryNext()
      requires Valid()
      modifies this, history
      ensures Valid() && Abs() == Apply(term, old(Abs()), Down)
    {
      hide EncodeAll, Offset, Sum, Showing, With, Without, WordStart, NextWord, Older;
      EmptyLine([]);
      if history.viewing.Some? {
        var shown := history.Next();
        if shown.None? { return; }
        ghost var cs := if history.viewing.None? then saved else past[history.viewing.value];
        if history.viewing.None? {
          saved := [];
        }
        SetLineContents(shown.value, cs);
      }
    }

    /** One key of the edit loop. */
    method Handle(k: Key)
      requires Valid()
      modifies this, history
      ensures Valid() && Abs() == Apply(term, old(Abs()), k)
    {
      match k
      case Insert(c) => InsertKey(c);
      case Backspace => BackspaceKey();
      case Delete => DeleteAtCursor();
      case Left => LeftKey();
      case Right => RightKey();
      case WordLeft => MoveWordLeft();
      case WordRight => MoveWordRight();
      case Home => MoveToLineStart();
      case End => MoveToLineEnd();
      case Up => HistoryPrev();
      case Down => HistoryNext();
    }

    /** The edit loop: after every sequence of keys the invariant holds and the editor is where the keys put it. */
    method HandleAll(ks: seq<Key>)
      requires Valid()
      modifies this, history
      ensures Valid() && Abs() == ApplyAll(term, old(Abs()), ks)
    {
      hide Apply;
      ghost var end := ApplyAll(term, Abs(), ks);
      var i := 0;
      while i < |ks|
        invariant 0 <= i <= |ks| && Valid() && Abs().Valid() && ApplyAll(term, Abs(), ks[i..]) == end
      {
        assert ks[i..][0] == ks[i] && ks[i..][1..] == ks[i + 1..];
        Handle(ks[i]);
        i := i + 1;
      }
    }

    /** The end of the line: a trailing backslash or slash is an instruction. */
    method CloseLine(endOfStream: bool, multiline: bool) returns (hasMore: bool)
      requires line == EncodeAll(chars)
      modifies this`line, this`chars
      ensures chars == Closed(old(chars), endOfStream) && line == EncodeAll(chars)
      ensures hasMore == More(old(chars), endOfStream, multiline)
    {
      hide EncodeAll;
      LastByte(chars);
      hasMore := multiline;
      if line != [] && (line[|line| - 1] == '\\' || line[|line| - 1] == '/') {
        var last := line[|line| - 1];
        line := line[..|line| - 1];
        chars := chars[..|chars| - 1];
        if last == '\\' {
          AppendByte(chars, 10);
          line := line + ['\n'];
          chars := chars + [10];
          hasMore := !hasMore;
        } else {
          OnlySpace(chars);
          EmptyLine([]);
          if line == [' '] {
            line := [];
            chars := [];
          }
          hasMore := false;
        }
      } else if endOfStream {
        hasMore := false;
      } else {
        AppendByte(chars, 10);
        line := line + ['\n'];
        chars := chars + [10];
      }
    }

    method DropNewline()
      requires line == EncodeAll(chars)
      modifies this`line, this`chars
      ensures chars == Unlined(old(chars)) && line == EncodeAll(chars)
    {
      hide EncodeAll;
      LastByte(chars);
      if line != [] && line[|line| - 1] == '\n' {
        line := line[..|line| - 1];
        chars := chars[..|chars| - 1];
      }
    }

    /** The line without its newline goes to the history. */
    method StoreLine()
      requires line == EncodeAll(chars) && history.Holds(past, saved)
      modifies this`line, this`chars, this`past, this`saved, history
      ensures chars == Unlined(old(chars)) && line == EncodeAll(chars) && history.Holds(past, saved)
      ensures past == Remembered(old(past), chars)
      ensures if chars != [] then history.viewing.None? && saved == []
              else history.viewing == old(history.viewing) && saved == old(saved)
    {
      hide EncodeAll, Unlined;
      DropNewline();
      EmptyLine(chars);
      EmptyLine([]);
      if past != [] && EncodeAll(past[|past| - 1]) == line {
        EncodeInjective(past[|past| - 1], chars);
      }
      history.Add(line);
      if line != [] {
        saved := [];
        past := Remembered(past, chars);
      }
    }

    /** What readline_advanced does when the line is ended: the text it returns, and the history for the next line. */
    method Finish(endOfStream: bool, multiline: bool) returns (hasMore: bool)
      requires Valid()
      modifies this, history
      ensures hasMore == More(old(chars), endOfStream, multiline)
      ensures line == EncodeAll(Returned(old(chars), endOfStream)) && history.Holds(past, saved)
      ensures State([], [], 0, past, history.viewing, saved) == NextLine(old(Abs()), endOfStream)
    {
      hide EncodeAll, Closed, Unlined, Remembered;
      hasMore := CloseLine(endOfStream, multiline);
      if !endOfStream {
        StoreLine();
      }
      RememberedNothing(old(past));
    }
  }

  lemma RememberedNothing(past: seq<Chars>)
    ensures Remembered(past, []) == past
  {
  }

  /** An ASCII byte at the end of the line is its last character. */
  lemma LastByte(cs: Chars)
    ensures var line := EncodeAll(cs);
            && (line == [] <==> cs == [])
            && (cs != [] && IsAscii(line[|line| - 1]) ==>
                  cs[|cs| - 1] == line[|line| - 1] as int && line[..|line| - 1] == EncodeAll(cs[..|cs| - 1]))
            && (cs != [] && cs[|cs| - 1] < 0x80 ==> line[|line| - 1] as int == cs[|cs| - 1])
  {
    hide EncodeAll, Encode;
    if cs == [] {
      assert EncodeAll(cs) == [] by { FirstChar(cs); }
    } else {
      var n := |cs| - 1;
      LastChar(cs);
      EncodeShape(cs[n]);
      EncodeAscii(cs[n]);
      LastOfConcat(EncodeAll(cs[..n]), Encode(cs[n]));
    }
  }

  lemma LastChar(cs: Chars)
    requires cs != []
    ensures EncodeAll(cs) == EncodeAll(cs[..|cs| - 1]) + Encode(cs[|cs| - 1])
  {
    hide EncodeAll, Encode;
    var n := |cs| - 1;
    assert cs == cs[..n] + [cs[n]];
    EncodeAllConcat(cs[..n], [cs[n]]);
    EncodeOne(cs[n]);
  }

  lemma EncodeAscii(c: CodePoint)
    ensures |Encode(c)| == 1 <==> c < 0x80
    ensures c < 0x80 ==> Encode(c)[0] as int == c
  {
  }

  lemma LastOfConcat(a: string, b: string)
    requires b != []
    ensures a + b != [] && (a + b)[|a + b| - 1] == b[|b| - 1]
    ensures |b| == 1 ==> (a + b)[..|a + b| - 1] == a
  {
  }

  lemma AppendByte(cs: Chars, c: CodePoint)
    requires c < 0x80
    ensures EncodeAll(cs + [c]) == EncodeAll(cs) + [c as char]
  {
    EncodeAllConcat(cs, [c]);
    EncodeOne(c);
  }

  lemma OnlySpace(cs: Chars)
    ensures EncodeAll(cs) == [' '] <==> cs == [0x20]
  {
    EncodeOne(0x20);
    LastByte(cs);
    if EncodeAll(cs) == [' '] {
      assert EncodeAll(cs)[..0] == [];
      EmptyLine(cs[..|cs| - 1]);
      assert cs == cs[..|cs| - 1] + [cs[|cs| - 1]];
    }
  }

  lemma EmptyLine(cs: Chars)
    ensures EncodeAll(cs) == [] <==> cs == []
  {
  }

  lemma AppendWidth(ws: seq<nat>, w: nat)
    ensures Sum(ws + [w]) == Sum(ws) + w
  {
    assert (ws + [w])[..|ws|] == ws;
  }

  lemma CharRead(cs: Chars, k: nat)
    requires k < |cs|
    ensures var b := Offset(cs, k);
            && b < |EncodeAll(cs)| && Decode(EncodeAll(cs), b).0 == cs[k]
            && b < b + Decode(EncodeAll(cs), b).1 == Offset(cs, k + 1) <= |EncodeAll(cs)|
  {
    hide EncodeAll, Offset, Decode;
    DecodeAt(cs, k);
    SplitAt(cs, k);
  }

  /** Only the end of the line has its offset. */
  lemma AtEnd(cs: Chars, k: nat)
    requires k <= |cs| && Offset(cs, k) >= |EncodeAll(cs)|
    ensures k == |cs|
  {
    if k < |cs| {
      PrevNextInverse(cs, k);
    }
  }
}

/** The line editor of console.cpp: a UTF-8 line with a cursor, redrawn on a terminal, and the history of lines.
    The terminal is represented by the column of its cursor. */
module LineEditor {
  import opened Text
  import opened Utf8

  type Chars = seq<CodePoint>

  /** The terminal: how wide it draws a character (negative if it cannot say), and which characters are white space. */
  datatype Terminal = Terminal(measure: CodePoint -> int, space: CodePoint -> bool) {
    function Width(c: CodePoint): nat {
      if measure(c) < 0 then 0 else measure(c)
    }
  }

  // ----- What the editor does, on characters

  datatype State = State(chars: Chars, widths: seq<nat>, at: nat, past: seq<Chars>, viewing: Option<nat>, saved: Chars) {
    predicate Valid() {
      |widths| == |chars| && at <= |chars| && (viewing.Some? ==> viewing.value <= |past|)
    }
  }

  datatype Key = Insert(c: CodePoint) | Backspace | Delete | Left | Right | WordLeft | WordRight | Home | End | Up | Down

  /** The position behind the nearest character to the left whose spaceness is not `sp`. */
  function SkipLeft(t: Terminal, cs: Chars, at: nat, sp: bool): (r: nat)
    requires at <= |cs|
    ensures r <= at
  {
    if at > 0 && t.space(cs[at - 1]) == sp then SkipLeft(t, cs, at - 1, sp) else at
  }

  function SkipRight(t: Terminal, cs: Chars, at: nat, sp: bool): (r: nat)
    requires at <= |cs|
    ensures at <= r <= |cs|
    decreases |cs| - at
  {
    if at < |cs| && t.space(cs[at]) == sp then SkipRight(t, cs, at + 1, sp) else at
  }

  function WordStart(t: Terminal, cs: Chars, at: nat): (r: nat)
    requires at <= |cs|
    ensures r <= at
  {
    SkipLeft(t, cs, SkipLeft(t, cs, at, true), false)
  }

  function NextWord(t: Terminal, cs: Chars, at: nat): (r: nat)
    requires at <= |cs|
    ensures at <= r <= |cs|
  {
    SkipRight(t, cs, SkipRight(t, cs, SkipRight(t, cs, at, true), false), true)
  }

  function Without<T>(s: seq<T>, i: nat): seq<T>
    requires i < |s|
  {
    s[..i] + s[i + 1..]
  }

  function With<T>(s: seq<T>, i: nat, x: T): seq<T>
    requires i <= |s|
  {
    s[..i] + [x] + s[i..]
  }

  function Measured(t: Terminal, cs: Chars): (ws: seq<nat>)
    ensures |ws| == |cs|
  {
    seq(|cs|, i requires 0 <= i < |cs| => t.Width(cs[i]))
  }

  /** set_line_contents. */
  function Showing(t: Terminal, s: State, cs: Chars): State {
    s.(chars := cs, widths := Measured(t, cs), at := |cs|)
  }

  function Older(t: Terminal, s: State): State
    requires s.Valid()
  {
    var v := if s.viewing.None? then s.(viewing := Some(|s.past|), saved := s.chars) else s;
    if v.past == [] then v
    else
      var i := if v.viewing.value > 0 then v.viewing.value - 1 else 0;
      Showing(t, v.(viewing := Some(i)), v.past[i])
  }

  function Newer(t: Terminal, s: State): State
    requires s.Valid()
  {
    if s.viewing.None? || s.past == [] then s
    else
      var i := s.viewing.value + 1;
      if i >= |s.past| then Showing(t, s.(viewing := None, saved := []), s.saved)
      else Showing(t, s.(viewing := Some(i)), s.past[i])
  }

  function Apply(t: Terminal, s: State, k: Key): (r: State)
    requires s.Valid()
    ensures r.Valid()
  {
    match k
    case Insert(c) => s.(chars := With(s.chars, s.at, c), widths := With(s.widths, s.at, t.Width(c)), at := s.at + 1)
    case Backspace =>
      if s.at == 0 then s
      else s.(chars := Without(s.chars, s.at - 1), widths := Without(s.widths, s.at - 1), at := s.at - 1)
    case Delete =>
      if s.at >= |s.chars| then s else s.(chars := Without(s.chars, s.at), widths := Without(s.widths, s.at))
    case Left => if s.at == 0 then s else s.(at := s.at - 1)
    case Right => if s.at >= |s.chars| then s else s.(at := s.at + 1)
    case WordLeft => s.(at := WordStart(t, s.chars, s.at))
    case WordRight => s.(at := NextWord(t, s.chars, s.at))
    case Home => s.(at := 0)
    case End => s.(at := |s.chars|)
    case Up => Older(t, s)
    case Down => Newer(t, s)
  }

  function ApplyAll(t: Terminal, s: State, ks: seq<Key>): (r: State)
    requires s.Valid()
    ensures r.Valid()
    decreases |ks|
  {
    if ks == [] then s else ApplyAll(t, Apply(t, s, ks[0]), ks[1..])
  }

  // ----- The end of a line

  /** The text of the ended line: a trailing backslash becomes a newline, a trailing slash goes, and with it a space that
      would be left alone. */
  function Closed(cs: Chars, endOfStream: bool): Chars {
    if cs != [] && cs[|cs| - 1] == 0x5C then cs[..|cs| - 1] + [10]
    else if cs != [] && cs[|cs| - 1] == 0x2F then if cs == [0x20, 0x2F] then [] else cs[..|cs| - 1]
    else if endOfStream then cs
    else cs + [10]
  }

  function Unlined(cs: Chars): Chars {
    if cs != [] && cs[|cs| - 1] == 10 then cs[..|cs| - 1] else cs
  }

  function More(cs: Chars, endOfStream: bool, multiline: bool): bool {
    if cs != [] && cs[|cs| - 1] == 0x5C then !multiline
    else multiline && !endOfStream && !(cs != [] && cs[|cs| - 1] == 0x2F)
  }

  /** The history with one more line, unless it is empty or repeats the last one. */
  function Remembered(past: seq<Chars>, text: Chars): seq<Chars> {
    if text == [] || (past != [] && past[|past| - 1] == text) then past else past + [text]
  }

  /** What is returned, and remembered unless the stream ended. */
  function Returned(cs: Chars, endOfStream: bool): Chars {
    if endOfStream then Closed(cs, endOfStream) else Unlined(Closed(cs, endOfStream))
  }

  /** A line that leaves no text to remember does not end the viewing of the history. */
  predicate StillViewing(s: State, endOfStream: bool) {
    s.viewing.Some? && (endOfStream || Returned(s.chars, endOfStream) == [])
  }

  /** The beginning of the next line. */
  function NextLine(s: State, endOfStream: bool): (r: State)
    requires s.Valid()
    ensures r.Valid()
  {
    var text := Returned(s.chars, endOfStream);
    if endOfStream || text == [] then State([], [], 0, s.past, s.viewing, s.saved)
    else State([], [], 0, Remembered(s.past, text), None, [])
  }

  // ----- Laws of the keys

  lemma WithWithout<T>(s: seq<T>, i: nat, x: T)
    requires i <= |s|
    ensures Without(With(s, i, x), i) == s
  {
  }

  /** Backspace undoes typing, also in the middle of a line; so does going left and deleting. */
  lemma BackspaceUndoes(t: Terminal, s: State, c: CodePoint)
    requires s.Valid()
    ensures Apply(t, Apply(t, s, Insert(c)), Backspace) == s
    ensures ApplyAll(t, s, [Insert(c), Left, Delete]) == s
  {
    hide With, Without;
    WithWithout(s.chars, s.at, c);
    WithWithout(s.widths, s.at, t.Width(c));
    var s1 := Apply(t, s, Insert(c));
    WithLength(s.chars, s.at, c);
    Three(t, s, Insert(c), Left, Delete);
  }

  lemma WithLength<T>(s: seq<T>, i: nat, x: T)
    requires i <= |s|
    ensures |With(s, i, x)| == |s| + 1
  {
  }

  lemma Three(t: Terminal, s: State, a: Key, b: Key, c: Key)
    requires s.Valid()
    ensures ApplyAll(t, s, [a, b, c]) == Apply(t, Apply(t, Apply(t, s, a), b), c)
  {
    hide Apply;
    assert [a, b, c][1..] == [b, c] && [b, c][1..] == [c] && [c][1..] == [];
    var x := Apply(t, Apply(t, s, a), b);
    assert ApplyAll(t, x, [c]) == Apply(t, x, c);
  }

  /** Typing a text, wherever the cursor is, puts exactly that text there, with its widths. */
  lemma {:induction false} TypingInserts(t: Terminal, s: State, text: Chars)
    requires s.Valid()
    ensures var r := ApplyAll(t, s, Typed(text));
            && r.chars == s.chars[..s.at] + text + s.chars[s.at..]
            && r.widths == s.widths[..s.at] + Measured(t, text) + s.widths[s.at..]
            && r.at == s.at + |text|
            && r.past == s.past && r.viewing == s.viewing && r.saved == s.saved
    decreases |text|
  {
    if text == [] {
      assert s.chars[..s.at] + text + s.chars[s.at..] == s.chars;
      assert s.widths[..s.at] + [] + s.widths[s.at..] == s.widths;
    } else {
      var c, rest := text[0], text[1..];
      var s1 := Apply(t, s, Insert(c));
      assert Typed(text)[1..] == Typed(rest);
      TypingInserts(t, s1, rest);
      InsertThenMore(s.chars, s.at, c, rest);
      InsertThenMore(s.widths, s.at, t.Width(c), Measured(t, rest));
      assert [c] + rest == text && [t.Width(c)] + Measured(t, rest) == Measured(t, text);
    }
  }

  lemma InsertThenMore<T>(s: seq<T>, i: nat, x: T, rest: seq<T>)
    requires i <= |s|
    ensures var u := With(s, i, x); u[..i + 1] + rest + u[i + 1..] == s[..i] + ([x] + rest) + s[i..]
  {
  }

  function Typed(text: Chars): (ks: seq<Key>)
    ensures |ks| == |text|
  {
    seq(|text|, i requires 0 <= i < |text| => Insert(text[i]))
  }

  function Times(k: Key, n: nat): (ks: seq<Key>)
    ensures |ks| == n
  {
    seq(n, i requires 0 <= i < n => k)
  }

  lemma {:induction false} AllUps(t: Terminal, s: State, n: nat)
    requires s.Valid() && s.viewing.Some? && s.past != []
    ensures var r := ApplyAll(t, s, Times(Up, n));
            && r.viewing == Some(if n <= s.viewing.value then s.viewing.value - n else 0)
            && r.past == s.past && r.saved == s.saved
            && (n > 0 ==> r.chars == s.past[r.viewing.value])
    decreases n
  {
    if n > 0 {
      var s1 := Apply(t, s, Up);
      assert Times(Up, n)[1..] == Times(Up, n - 1);
      AllUps(t, s1, n - 1);
    }
  }

  lemma {:induction false} AllDowns(t: Terminal, s: State, n: nat)
    requires s.Valid() && s.viewing.Some? && s.past != [] && n == |s.past| - s.viewing.value > 0
    ensures ApplyAll(t, s, Times(Down, n)) == Showing(t, s.(viewing := None, saved := []), s.saved)
    decreases n
  {
    var s1 := Apply(t, s, Down);
    assert Times(Down, n)[1..] == Times(Down, n - 1);
    if n > 1 {
      AllDowns(t, s1, n - 1);
    }
  }

  /** What the history gives back at its new end: the line being typed, unless the history was being viewed already. */
  function Backup(s: State): Chars {
    if s.viewing.None? then s.chars else s.saved
  }

  function Viewed(s: State): nat {
    if s.viewing.None? then |s.past| else s.viewing.value
  }

  /** The state in which the history is being viewed. */
  function Begun(s: State): State {
    s.(viewing := Some(Viewed(s)), saved := Backup(s))
  }

  lemma UpBegins(t: Terminal, s: State, n: nat)
    requires s.Valid() && n > 0
    ensures ApplyAll(t, s, Times(Up, n)) == ApplyAll(t, Begun(s), Times(Up, n))
  {
    hide Measured;
    assert Apply(t, s, Up) == Apply(t, Begun(s), Up);
  }

  /** Going up in the history, however often, and down again to its end gives back the line being typed, with the cursor at
      its end, if and only if the history was not being viewed already or happens to have saved the same line. */
  lemma HistoryRoundTrip(t: Terminal, s: State, n: nat)
    requires s.Valid() && s.past != [] && n > 0
    ensures var up, far := ApplyAll(t, s, Times(Up, n)), if n <= Viewed(s) then Viewed(s) - n else 0;
            && far < |s.past| && up.chars == s.past[far]
            && ApplyAll(t, up, Times(Down, |s.past| - far)) == Showing(t, s.(viewing := None, saved := []), Backup(s))
            && (ApplyAll(t, up, Times(Down, |s.past| - far)).chars == s.chars <==> s.viewing.None? || s.saved == s.chars)
  {
    hide ApplyAll, Times, Apply;
    UpBegins(t, s, n);
    AllUps(t, Begun(s), n);
    var up := ApplyAll(t, Begun(s), Times(Up, n));
    AllDowns(t, up, |s.past| - up.viewing.value);
  }

  /** Over two lines: a text typed into the second one survives a walk through the history if and only if the first line
      did not end while the history was being viewed and with nothing to remember, or the history saved just this text. */
  lemma NextLineRoundTrip(t: Terminal, s: State, endOfStream: bool, text: Chars, n: nat)
    requires s.Valid() && NextLine(s, endOfStream).past != [] && n > 0
    ensures var typed := ApplyAll(t, NextLine(s, endOfStream), Typed(text));
            var far := if n <= Viewed(typed) then Viewed(typed) - n else 0;
            && typed.chars == text && far < |typed.past|
            && (ApplyAll(t, ApplyAll(t, typed, Times(Up, n)), Times(Down, |typed.past| - far)).chars == text
                <==> !StillViewing(s, endOfStream) || s.saved == text)
  {
    hide ApplyAll, Returned, Showing;
    var begun := NextLine(s, endOfStream);
    TypingInserts(t, begun, text);
    var typed := ApplyAll(t, begun, Typed(text));
    assert [] + text + [] == text;
    HistoryRoundTrip(t, typed, n);
  }

  /** A word move to the left passes spaces and then one word, from its end to its start; one to the right passes spaces,
      one word, and the spaces behind it. */
  lemma WordMoves(t: Terminal, cs: Chars, at: nat) returns (m: nat, p: nat, q: nat)
    requires at <= |cs|
    ensures var l := WordStart(t, cs, at);
            && l <= m <= at && (forall i :: m <= i < at ==> t.space(cs[i])) && (forall i :: l <= i < m ==> !t.space(cs[i]))
            && (l > 0 ==> t.space(cs[l - 1])) && (m > 0 ==> l < m)
    ensures var r := NextWord(t, cs, at);
            && at <= p <= q <= r && (p < |cs| ==> p < q)
            && (forall i :: at <= i < p ==> t.space(cs[i])) && (forall i :: p <= i < q ==> !t.space(cs[i]))
            && (forall i :: q <= i < r ==> t.space(cs[i])) && (q < |cs| ==> q < r) && (r < |cs| ==> !t.space(cs[r]))
  {
    m := SkipLeft(t, cs, at, true);
    SkipsLeft(t, cs, at, true);
    SkipsLeft(t, cs, m, false);
    p := SkipRight(t, cs, at, true);
    SkipsRight(t, cs, at, true);
    q := SkipRight(t, cs, p, false);
    SkipsRight(t, cs, p, false);
    SkipsRight(t, cs, q, true);
  }

  lemma {:induction false} SkipsLeft(t: Terminal, cs: Chars, at: nat, sp: bool)
    requires at <= |cs|
    ensures var r := SkipLeft(t, cs, at, sp);
            && (forall i :: r <= i < at ==> t.space(cs[i]) == sp)
            && (r > 0 ==> t.space(cs[r - 1]) != sp)
  {
    if at > 0 && t.space(cs[at - 1]) == sp {
      SkipsLeft(t, cs, at - 1, sp);
    }
  }

  lemma {:induction false} SkipsRight(t: Terminal, cs: Chars, at: nat, sp: bool)
    requires at <= |cs|
    ensures var r := SkipRight(t, cs, at, sp);
            && (forall i :: at <= i < r ==> t.space(cs[i]) == sp)
            && (r < |cs| ==> t.space(cs[r]) != sp)
    decreases |cs| - at
  {
    if at < |cs| && t.space(cs[at]) == sp {
      SkipsRight(t, cs, at + 1, sp);
    }
  }

  // ----- The cursor

  /** Keys that would leave the line do nothing. */
  lemma EdgesHold(t: Terminal, s: State)
    requires s.Valid()
    ensures s.at == 0 ==> Apply(t, s, Left) == s && Apply(t, s, Backspace) == s && Apply(t, s, Home) == s && Apply(t, s, WordLeft) == s
    ensures s.at == |s.chars| ==>
              Apply(t, s, Right) == s && Apply(t, s, Delete) == s && Apply(t, s, End) == s && Apply(t, s, WordRight) == s
  {
  }

  lemma Two(t: Terminal, s: State, a: Key, b: Key)
    requires s.Valid()
    ensures ApplyAll(t, s, [a, b]) == Apply(t, Apply(t, s, a), b)
  {
    hide Apply;
    assert [a, b][1..] == [b] && [b][1..] == [];
    var x := Apply(t, s, a);
    assert ApplyAll(t, x, [b]) == Apply(t, x, b);
  }

  /** Left and right undo each other, and deleting is going right and taking back. */
  lemma LeftRight(t: Terminal, s: State)
    requires s.Valid()
    ensures s.at > 0 ==> ApplyAll(t, s, [Left, Right]) == s
    ensures s.at < |s.chars| ==> ApplyAll(t, s, [Right, Left]) == s && ApplyAll(t, s, [Right, Backspace]) == Apply(t, s, Delete)
  {
    Two(t, s, Left, Right);
    Two(t, s, Right, Left);
    Two(t, s, Right, Backspace);
  }

  lemma TimesSplit(k: Key, n: nat)
    requires n > 0
    ensures Times(k, n)[0] == k && Times(k, n)[1..] == Times(k, n - 1)
  {
  }

  /** Home and End are where going left and right ends. */
  lemma {:induction false} HomeIsLefts(t: Terminal, s: State, n: nat)
    requires s.Valid()
    ensures ApplyAll(t, s, Times(Left, n)) == if n < s.at then s.(at := s.at - n) else Apply(t, s, Home)
    decreases n
  {
    if n > 0 {
      TimesSplit(Left, n);
      HomeIsLefts(t, Apply(t, s, Left), n - 1);
    }
  }

  lemma {:induction false} EndIsRights(t: Terminal, s: State, n: nat)
    requires s.Valid()
    ensures ApplyAll(t, s, Times(Right, n)) == if s.at + n < |s.chars| then s.(at := s.at + n) else Apply(t, s, End)
    decreases n
  {
    if n > 0 {
      TimesSplit(Right, n);
      EndIsRights(t, Apply(t, s, Right), n - 1);
    }
  }

  // ----- The history

  /** Every step up shows the next older line, up to the oldest; the first one saves the line that was being typed. */
  lemma {:induction false} UpsShow(t: Terminal, s: State, n: nat)
    requires s.Valid() && s.past != [] && 0 < n
    ensures var from := if s.viewing.Some? then s.viewing.value else |s.past|;
            var v := if n <= from then from - n else 0;
            ApplyAll(t, s, Times(Up, n))
            == Showing(t, s.(viewing := Some(v), saved := if s.viewing.Some? then s.saved else s.chars), s.past[v])
    decreases n
  {
    TimesSplit(Up, n);
    if n > 1 {
      UpsShow(t, Apply(t, s, Up), n - 1);
    }
  }

  /** Every step down shows the next newer line. */
  lemma {:induction false} DownsShow(t: Terminal, s: State, n: nat)
    requires s.Valid() && s.viewing.Some? && 0 < n && s.viewing.value + n < |s.past|
    ensures var v := s.viewing.value + n;
            ApplyAll(t, s, Times(Down, n)) == Showing(t, s.(viewing := Some(v)), s.past[v])
    decreases n
  {
    TimesSplit(Down, n);
    if n > 1 {
      DownsShow(t, Apply(t, s, Down), n - 1);
    }
  }

  /** Without a history, up and down leave the line as it is. */
  lemma NoHistory(t: Terminal, s: State)
    requires s.Valid() && s.past == []
    ensures var u := Apply(t, s, Up);
            u.chars == s.chars && u.widths == s.widths && u.at == s.at && u.past == []
    ensures Apply(t, s, Down) == s
  {
  }

  // ----- The end of a line

  predicate EndsIn(cs: Chars, c: CodePoint) {
    cs != [] && cs[|cs| - 1] == c
  }

  /** An ordinary line returns itself, with no newline behind it, and only several lines ask for another one. */
  lemma LineReturned(b: Chars, endOfStream: bool, multiline: bool)
    requires !EndsIn(b, 0x5C) && !EndsIn(b, 0x2F)
    ensures Returned(b, endOfStream) == b && More(b, endOfStream, multiline) == (multiline && !endOfStream)
  {
    hide Unlined;
    UnlinedIs(b);
  }

  /** A backslash at the end goes and asks for the other of one and several lines; only a stream that ends leaves a newline. */
  lemma BackslashReturned(b: Chars, endOfStream: bool, multiline: bool)
    ensures Returned(b + [0x5C], endOfStream) == if endOfStream then b + [10] else b
    ensures More(b + [0x5C], endOfStream, multiline) == !multiline
  {
    hide Unlined;
    UnlinedIs(b);
    SpecialEnd(b, 0x5C);
  }

  /** A slash at the end goes, with a lone space in front of it, and ends the input. */
  lemma SlashReturned(b: Chars, endOfStream: bool, multiline: bool)
    ensures Returned(b + [0x2F], endOfStream) == if b == [0x20] then [] else if endOfStream then b else Unlined(b)
    ensures !More(b + [0x2F], endOfStream, multiline)
  {
    hide Unlined;
    UnlinedIs([]);
    SpecialEnd(b, 0x2F);
  }

  /** A newline at the end goes. */
  lemma UnlinedIs(b: Chars)
    ensures Unlined(b) == (if EndsIn(b, 10) then b[..|b| - 1] else b) && Unlined(b + [10]) == b && Unlined([]) == []
  {
    assert (b + [10])[..|b|] == b;
  }

  lemma SpecialEnd(b: Chars, c: CodePoint)
    ensures var cs := b + [c]; cs[|cs| - 1] == c && cs[..|cs| - 1] == b && (cs == [0x20, 0x2F] <==> b == [0x20] && c == 0x2F)
  {
    var cs := b + [c];
    if b == [0x20] && c == 0x2F {
      assert cs == [0x20, 0x2F];
    } else if cs == [0x20, 0x2F] {
      assert b == cs[..1] == [0x20];
    }
  }

  /** An ended line is what the next one finds first in the history, once: a line that repeats the last one is not added. */
  lemma EndedLineIsRecalled(t: Terminal, s: State)
    requires s.Valid() && Returned(s.chars, false) != []
    ensures var r, n := Returned(s.chars, false), NextLine(s, false);
            && Apply(t, n, Up).chars == r
            && n.past == (if s.past != [] && Last(s.past) == r then s.past else s.past + [r])
            && n.chars == [] && n.viewing.None? && n.saved == []
            && (|n.past| > 1 ==> ApplyAll(t, n, [Up, Up]).chars == n.past[|n.past| - 2])
  {
    hide Returned;
    Two(t, NextLine(s, false), Up, Up);
  }

  /** A line that returns nothing, and one that the stream ended, leave the history alone. */
  lemma NothingIsRemembered(s: State, endOfStream: bool)
    requires s.Valid() && (endOfStream || Returned(s.chars, endOfStream) == [])
    ensures NextLine(s, endOfStream) == s.(chars := [], widths := [], at := 0)
  {
  }
}

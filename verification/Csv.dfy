/** parse_csv_row of arg.cpp (section 2 of RFC 4180). */
module Csv {

  const QUOTE := '"'
  const COMMA := ','

  /** The rest of the row, with the field read so far. */
  function Parse(s: string, field: string, quoted: bool): seq<string>
    decreases |s|
  {
    if s == [] then [field]
    else if s[0] == QUOTE then
      if !quoted then if field != [] then Parse(s[1..], field + [QUOTE], false) else Parse(s[1..], field, true)
      else if |s| > 1 && s[1] == QUOTE then Parse(s[2..], field + [QUOTE], true)
      else Parse(s[1..], field, false)
    else if s[0] == COMMA && !quoted then [field] + Parse(s[1..], [], false)
    else Parse(s[1..], field + [s[0]], quoted)
  }

  /** The loop of the source. */
  method ParseCsvRow(input: string) returns (fields: seq<string>)
    ensures fields == Parse(input, [], false)
  {
    fields := [];
    var field: string, quoted := [], false;
    var i := 0;
    assert input[0..] == input;
    while i < |input|
      invariant 0 <= i <= |input| && fields + Parse(input[i..], field, quoted) == Parse(input, [], false)
    {
      ghost var rest := input[i..];
      assert rest[0] == input[i] && rest[1..] == input[i + 1..];
      var ch := input[i];
      if ch == QUOTE {
        if !quoted {
          if field != [] {
            field := field + [QUOTE];
          } else {
            quoted := true;
          }
        } else if i + 1 < |input| && input[i + 1] == QUOTE {
          assert rest[1] == QUOTE && rest[2..] == input[i + 2..];
          field := field + [QUOTE];
          i := i + 1;
        } else {
          quoted := false;
        }
      } else if ch == COMMA {
        if quoted {
          field := field + [COMMA];
        } else {
          fields := fields + [field];
          field := [];
        }
      } else {
        field := field + [ch];
      }
      i := i + 1;
    }
    fields := fields + [field];
  }

  // ----- Rows as they are written

  /** A field as it stands in a row: bare; in quotes, with or without text behind the closing quote; or in quotes that are
      never closed. */
  datatype Cell = Bare(text: string) | Quoted(text: string, tail: string) | Unclosed(text: string) {
    /** The field that it stands for. */
    function Value(): string {
      if Quoted? then text + tail else text
    }

    function Written(): string {
      match this
      case Bare(text) => text
      case Quoted(text, tail) => [QUOTE] + Inner(text) + [QUOTE] + tail
      case Unclosed(text) => [QUOTE] + Inner(text)
    }

    predicate Valid() {
      match this
      case Bare(text) => Plain(text)
      case Quoted(_, tail) => Plain(tail)
      case Unclosed(_) => true
    }
  }

  /** Inner quotes doubled. */
  function Inner(f: string): string {
    if f == [] then [] else (if f[0] == QUOTE then [QUOTE, QUOTE] else [f[0]]) + Inner(f[1..])
  }

  /** Text without quotes around it: no comma, and a quote only where it cannot open the field. */
  predicate Plain(f: string) {
    COMMA !in f && (f != [] ==> f[0] != QUOTE)
  }

  function Row(cells: seq<Cell>): string {
    if cells == [] then []
    else if |cells| == 1 then cells[0].Written()
    else cells[0].Written() + [COMMA] + Row(cells[1..])
  }

  function Values(cells: seq<Cell>): seq<string> {
    if cells == [] then [] else [cells[0].Value()] + Values(cells[1..])
  }

  /** Only the last field can be left open. */
  predicate ValidRow(cells: seq<Cell>) {
    && cells != []
    && (forall c <- cells :: c.Valid())
    && (forall i :: 0 <= i < |cells| - 1 ==> !cells[i].Unclosed?)
  }

  // ----- Reading them back

  lemma {:induction false} InnerRead(f: string, done: string, rest: string)
    requires rest != [] ==> rest[0] != QUOTE
    ensures Parse(Inner(f) + [QUOTE] + rest, done, true) == Parse(rest, done + f, false)
    decreases |f|
  {
    var s := Inner(f) + [QUOTE] + rest;
    if f == [] {
      assert s[0] == QUOTE && s[1..] == rest;
      assert done + f == done;
    } else {
      var tail := Inner(f[1..]) + [QUOTE] + rest;
      InnerRead(f[1..], done + [f[0]], rest);
      assert done + [f[0]] + f[1..] == done + f;
      if f[0] == QUOTE {
        assert s == [QUOTE, QUOTE] + tail && s[2..] == tail;
      } else {
        assert s == [f[0]] + tail && s[1..] == tail;
      }
    }
  }

  lemma {:induction false} UnclosedRead(f: string, done: string)
    ensures Parse(Inner(f), done, true) == [done + f]
    decreases |f|
  {
    if f == [] {
      assert done + f == done;
    } else {
      var s, tail := Inner(f), Inner(f[1..]);
      UnclosedRead(f[1..], done + [f[0]]);
      assert done + [f[0]] + f[1..] == done + f;
      if f[0] == QUOTE {
        assert s == [QUOTE, QUOTE] + tail && s[2..] == tail;
      } else {
        assert s == [f[0]] + tail && s[1..] == tail;
      }
    }
  }

  lemma {:induction false} PlainRead(f: string, done: string, rest: string)
    requires COMMA !in f && (f != [] && done == [] ==> f[0] != QUOTE)
    ensures Parse(f + rest, done, false) == Parse(rest, done + f, false)
    decreases |f|
  {
    if f == [] {
      assert f + rest == rest && done + f == done;
    } else {
      assert (f + rest)[1..] == f[1..] + rest && (f + rest)[0] == f[0];
      assert f[0] in f;
      PlainRead(f[1..], done + [f[0]], rest);
      assert done + [f[0]] + f[1..] == done + f;
    }
  }

  /** What may come behind a field. */
  predicate FieldEnd(rest: string) {
    rest == [] || rest[0] == COMMA
  }

  lemma CellRead(c: Cell, rest: string)
    requires c.Valid() && FieldEnd(rest) && (c.Unclosed? ==> rest == [])
    ensures Parse(c.Written() + rest, [], false) == Parse(rest, c.Value(), false)
  {
    hide Parse, Inner;
    match c {
      case Bare(text) =>
        PlainRead(text, [], rest);
        assert [] + text == text;
      case Quoted(text, tail) => QuotedRead(text, tail, rest);
      case Unclosed(text) =>
        assert c.Written() + rest == [QUOTE] + Inner(text);
        OpensQuotes(Inner(text));
        UnclosedRead(text, []);
        assert [] + text == text;
        NothingLeft(text);
    }
  }

  lemma QuotedRead(text: string, tail: string, rest: string)
    requires Plain(tail) && FieldEnd(rest)
    ensures Parse([QUOTE] + Inner(text) + [QUOTE] + tail + rest, [], false) == Parse(rest, text + tail, false)
  {
    hide Parse, Inner;
    var inner := Inner(text) + [QUOTE] + (tail + rest);
    assert [QUOTE] + Inner(text) + [QUOTE] + tail + rest == [QUOTE] + inner;
    OpensQuotes(inner);
    InnerRead(text, [], tail + rest);
    assert [] + text == text;
    PlainRead(tail, text, rest);
  }

  lemma OpensQuotes(s: string)
    ensures Parse([QUOTE] + s, [], false) == Parse(s, [], true)
  {
    assert ([QUOTE] + s)[1..] == s;
  }

  lemma NothingLeft(field: string)
    ensures Parse([], field, false) == [field]
  {
  }

  /** Main result: every row, however its fields are written, is read back. */
  lemma {:induction false} RowRoundTrip(cells: seq<Cell>)
    requires ValidRow(cells)
    ensures Parse(Row(cells), [], false) == Values(cells)
    decreases |cells|
  {
    hide Parse;
    var c, rest := cells[0], cells[1..];
    if rest == [] {
      CellRead(c, []);
      assert c.Written() + [] == c.Written();
      NothingLeft(c.Value());
    } else {
      CellRead(c, [COMMA] + Row(rest));
      assert c.Written() + [COMMA] + Row(rest) == c.Written() + ([COMMA] + Row(rest));
      NextField(Row(rest), c.Value());
      assert ValidRow(rest);
      RowRoundTrip(rest);
    }
  }

  lemma NextField(s: string, field: string)
    ensures Parse([COMMA] + s, field, false) == [field] + Parse(s, [], false)
  {
    assert ([COMMA] + s)[1..] == s;
  }

  // ----- Every text is a row

  /** Text in quotes, up to the quote that closes it. */
  lemma {:induction false} SplitsInner(s: string) returns (f: string, closed: bool, rest: string)
    ensures s == Inner(f) + (if closed then [QUOTE] + rest else [])
    ensures closed && rest != [] ==> rest[0] != QUOTE
    ensures |rest| <= |s|
    decreases |s|
  {
    if s == [] {
      f, closed, rest := [], false, [];
    } else if s[0] != QUOTE {
      f, closed, rest := SplitsInner(s[1..]);
      InnerCons(s[0], f);
      f := [s[0]] + f;
    } else if |s| > 1 && s[1] == QUOTE {
      f, closed, rest := SplitsInner(s[2..]);
      InnerCons(QUOTE, f);
      assert s == [QUOTE, QUOTE] + s[2..];
      f := [QUOTE] + f;
    } else {
      f, closed, rest := [], true, s[1..];
    }
  }

  lemma InnerCons(c: char, f: string)
    ensures Inner([c] + f) == (if c == QUOTE then [QUOTE, QUOTE] else [c]) + Inner(f)
  {
    assert ([c] + f)[1..] == f;
  }

  lemma {:induction false} SplitsAtComma(s: string) returns (f: string, rest: string)
    ensures s == f + rest && COMMA !in f && FieldEnd(rest)
    decreases |s|
  {
    if s == [] || s[0] == COMMA {
      f, rest := [], s;
    } else {
      f, rest := SplitsAtComma(s[1..]);
      f := [s[0]] + f;
    }
  }

  lemma FirstCell(s: string) returns (c: Cell, rest: string)
    ensures s == c.Written() + rest && c.Valid() && FieldEnd(rest) && (c.Unclosed? ==> rest == [])
  {
    hide Inner;
    if s != [] && s[0] == QUOTE {
      var f, closed, more := SplitsInner(s[1..]);
      assert s == [QUOTE] + s[1..];
      if closed {
        var tail;
        tail, rest := SplitsAtComma(more);
        c := Quoted(f, tail);
        assert [QUOTE] + (Inner(f) + ([QUOTE] + (tail + rest))) == c.Written() + rest;
      } else {
        c, rest := Unclosed(f), [];
        assert [QUOTE] + (Inner(f) + []) == c.Written() + rest;
      }
    } else {
      var f;
      f, rest := SplitsAtComma(s);
      c := Bare(f);
    }
  }

  /** Every text is a row of such fields, so that the round trip says what any text is read as. */
  lemma {:induction false} EveryTextIsARow(s: string) returns (cells: seq<Cell>)
    ensures ValidRow(cells) && Row(cells) == s
    decreases |s|
  {
    var c, rest := FirstCell(s);
    if rest == [] {
      cells := [c];
      assert c.Written() + [] == c.Written();
    } else {
      var more := EveryTextIsARow(rest[1..]);
      cells := [c] + more;
      assert cells[1..] == more;
      assert c.Written() + [COMMA] + rest[1..] == c.Written() + rest;
    }
  }
}

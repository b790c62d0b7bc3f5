/** The SQL text a roster sync generates, and reading its VALUES rows back
    (internal/store/roster_sync.go). */
module SqlText {
  import opened Wrappers

  // ---------- printing ----------

  /** strings.ReplaceAll(s, "'", "''"). */
  function DoubleQuotes(s: string): string {
    if s == "" then ""
    else if s[0] == '\'' then "''" + DoubleQuotes(s[1..])
    else [s[0]] + DoubleQuotes(s[1..])
  }

  function QuoteSQL(s: string): string {
    "'" + DoubleQuotes(s) + "'"
  }

  function ListSeparator(i: nat, n: nat): string {
    if i + 1 == n then "" else ","
  }

  /** One row's values, each followed by its cast ("" for none). */
  function Cells(row: seq<string>, casts: seq<string>): string
    requires 0 < |row| <= |casts|
  {
    var first := QuoteSQL(row[0]) + casts[0];
    if |row| == 1 then first else first + ", " + Cells(row[1..], casts[1..])
  }

  function Line(indent: string, casts: seq<string>, row: seq<string>, separator: string): string
    requires 0 < |row| <= |casts|
  {
    indent + "(" + Cells(row, casts) + ")" + separator + "\n"
  }

  ghost predicate Shaped(rows: seq<seq<string>>, casts: seq<string>) {
    forall row :: row in rows ==> 0 < |row| <= |casts|
  }

  /** The first n of the rows, in the order the builder writes them. */
  function Lines(indent: string, casts: seq<string>, rows: seq<seq<string>>, n: nat): string
    requires n <= |rows| && Shaped(rows, casts)
  {
    if n == 0 then ""
    else Lines(indent, casts, rows, n - 1) + Line(indent, casts, rows[n - 1], ListSeparator(n - 1, |rows|))
  }

  // ---------- reading ----------

  predicate Blank(c: char) {
    c == ' ' || c == '\n' || c == '\t' || c == '\r'
  }

  function Skip(text: string): (rest: string)
    ensures |rest| <= |text|
  {
    if text != "" && Blank(text[0]) then Skip(text[1..]) else text
  }

  predicate Letter(c: char) {
    'a' <= c <= 'z'
  }

  function SkipLetters(text: string): (rest: string)
    ensures |rest| <= |text|
  {
    if text != "" && Letter(text[0]) then SkipLetters(text[1..]) else text
  }

  /** An optional ::type after a value. */
  function SkipCast(text: string): (rest: string)
    ensures |rest| <= |text|
  {
    if "::" <= text then SkipLetters(text[2..]) else text
  }

  /** The rest of a string literal whose opening quote has been read: a doubled quote stands for
      one quote, a single quote ends it, everything else stands for itself. */
  function ReadLiteral(text: string): (r: Option<(string, string)>)
    ensures r.Some? ==> |r.value.1| < |text|
  {
    if text == "" then None
    else if text[0] == '\'' then
      if |text| > 1 && text[1] == '\'' then
        match ReadLiteral(text[2..])
        case Some((value, rest)) => Some(("'" + value, rest))
        case None => None
      else Some(("", text[1..]))
    else
      match ReadLiteral(text[1..])
      case Some((value, rest)) => Some(([text[0]] + value, rest))
      case None => None
  }

  /** The values of a row, up to and including its closing parenthesis. */
  function ReadCells(text: string): (r: Option<(seq<string>, string)>)
    ensures r.Some? ==> |r.value.1| < |text|
    decreases |text|
  {
    var start := Skip(text);
    if start == "" || start[0] != '\'' then None
    else
      match ReadLiteral(start[1..])
      case None => None
      case Some((value, after)) =>
        var rest := Skip(SkipCast(after));
        if rest != "" && rest[0] == ',' then
          match ReadCells(rest[1..])
          case Some((more, end)) => Some(([value] + more, end))
          case None => None
        else if rest != "" && rest[0] == ')' then Some(([value], rest[1..]))
        else None
  }

  /** The rows of a VALUES list and the text after it. */
  function ReadRows(text: string): Option<(seq<seq<string>>, string)>
    decreases |text|
  {
    var start := Skip(text);
    if start == "" || start[0] != '(' then None
    else
      match ReadCells(start[1..])
      case None => None
      case Some((row, after)) =>
        var rest := Skip(after);
        if rest != "" && rest[0] == ',' then
          match ReadRows(rest[1..])
          case Some((more, end)) => Some(([row] + more, end))
          case None => None
        else Some(([row], rest))
  }

  // ---------- round trip ----------

  predicate StartsWith(text: string, c: char) {
    text != "" && text[0] == c
  }

  lemma {:induction false} LiteralRoundTrip(s: string, rest: string)
    requires !StartsWith(rest, '\'')
    ensures ReadLiteral(DoubleQuotes(s) + "'" + rest) == Some((s, rest))
  {
    var text := DoubleQuotes(s) + "'" + rest;
    if s == "" {
      assert text == "'" + rest && text[1..] == rest;
    } else {
      LiteralRoundTrip(s[1..], rest);
      var tail := DoubleQuotes(s[1..]) + "'" + rest;
      if s[0] == '\'' {
        assert text == "''" + tail && text[2..] == tail;
        assert s == "'" + s[1..];
      } else {
        assert text == [s[0]] + tail && text[1..] == tail;
        assert s == [s[0]] + s[1..];
      }
    }
  }

  /** A cast the reader knows: nothing, or :: and a type name. */
  predicate Cast(cast: string) {
    cast == "" || cast == "::uuid"
  }

  ghost predicate Casts(casts: seq<string>) {
    forall c :: c in casts ==> Cast(c)
  }

  lemma {:induction false} LettersSkipped(letters: string, rest: string)
    requires forall i :: 0 <= i < |letters| ==> Letter(letters[i])
    requires rest == "" || !Letter(rest[0])
    ensures SkipLetters(letters + rest) == rest
  {
    if letters == "" {
      assert letters + rest == rest;
    } else {
      assert (letters + rest)[1..] == letters[1..] + rest;
      LettersSkipped(letters[1..], rest);
    }
  }

  lemma {:induction false} CastSkipped(cast: string, rest: string)
    requires Cast(cast) && (StartsWith(rest, ',') || StartsWith(rest, ')'))
    ensures SkipCast(cast + rest) == rest && Skip(rest) == rest
    ensures !StartsWith(cast + rest, '\'')
  {
    if cast == "" {
      assert cast + rest == rest;
    } else {
      assert (cast + rest)[2..] == "uuid" + rest;
      LettersSkipped("uuid", rest);
    }
  }

  /** One value and its cast read back; what follows decides whether the row goes on. */
  lemma {:induction false} CellRead(value: string, cast: string, rest: string)
    requires Cast(cast) && (StartsWith(rest, ',') || StartsWith(rest, ')'))
    ensures ReadCells(QuoteSQL(value) + cast + rest) ==
      if rest[0] == ')' then Some(([value], rest[1..]))
      else
        match ReadCells(rest[1..])
        case Some((more, end)) => Some(([value] + more, end))
        case None => None
  {
    hide DoubleQuotes, ReadLiteral, SkipCast;
    var text := QuoteSQL(value) + cast + rest;
    CastSkipped(cast, rest);
    LiteralRoundTrip(value, cast + rest);
    assert text == "'" + (DoubleQuotes(value) + "'" + (cast + rest));
    assert text[1..] == DoubleQuotes(value) + "'" + (cast + rest);
    assert Skip(text) == text;
  }

  lemma {:induction false} CellsRoundTrip(row: seq<string>, casts: seq<string>, rest: string)
    requires 0 < |row| <= |casts| && Casts(casts)
    ensures ReadCells(Cells(row, casts) + ")" + rest) == Some((row, rest))
  {
    hide QuoteSQL, ReadCells, Cast, Skip;
    var end := ")" + rest;
    if |row| == 1 {
      CellRead(row[0], casts[0], end);
      assert Cells(row, casts) + ")" + rest == QuoteSQL(row[0]) + casts[0] + end;
      assert end[1..] == rest && row == [row[0]];
    } else {
      var more := Cells(row[1..], casts[1..]) + ")" + rest;
      var tail := ", " + more;
      CellRead(row[0], casts[0], tail);
      assert Cells(row, casts) + ")" + rest == QuoteSQL(row[0]) + casts[0] + tail;
      CellsRoundTrip(row[1..], casts[1..], rest);
      assert tail[1..] == " " + more;
      SkipBlanks(" ", more);
      ReadCellsSkips(" " + more, more);
      assert row == [row[0]] + row[1..];
    }
  }

  lemma {:induction false} SkipBlanks(blanks: string, text: string)
    requires forall i :: 0 <= i < |blanks| ==> Blank(blanks[i])
    ensures Skip(blanks + text) == Skip(text)
  {
    if blanks == "" {
      assert blanks + text == text;
    } else {
      assert (blanks + text)[1..] == blanks[1..] + text;
      SkipBlanks(blanks[1..], text);
    }
  }

  lemma {:induction false} ReadCellsSkips(a: string, b: string)
    requires Skip(a) == Skip(b)
    ensures ReadCells(a) == ReadCells(b)
  {
  }

  /** The rows from the i-th on, as text. */
  ghost function LinesFrom(indent: string, casts: seq<string>, rows: seq<seq<string>>, i: nat): string
    requires i <= |rows| && Shaped(rows, casts)
    decreases |rows| - i
  {
    if i == |rows| then ""
    else Line(indent, casts, rows[i], ListSeparator(i, |rows|)) + LinesFrom(indent, casts, rows, i + 1)
  }

  lemma {:induction false} LinesAreLinesFrom(indent: string, casts: seq<string>, rows: seq<seq<string>>, n: nat)
    requires n <= |rows| && Shaped(rows, casts)
    ensures Lines(indent, casts, rows, n) + LinesFrom(indent, casts, rows, n) == LinesFrom(indent, casts, rows, 0)
  {
    hide Line, ListSeparator;
    if n > 0 {
      LinesAreLinesFrom(indent, casts, rows, n - 1);
    } else {
      assert "" + LinesFrom(indent, casts, rows, 0) == LinesFrom(indent, casts, rows, 0);
    }
  }

  lemma {:induction false} LineRead(indent: string, casts: seq<string>, row: seq<string>, rest: string)
    requires forall i :: 0 <= i < |indent| ==> Blank(indent[i])
    requires 0 < |row| <= |casts| && Casts(casts)
    ensures ReadRows(indent + "(" + Cells(row, casts) + ")" + rest) ==
      var after := Skip(rest);
      if StartsWith(after, ',') then
        match ReadRows(after[1..])
        case Some((more, end)) => Some(([row] + more, end))
        case None => None
      else Some(([row], after))
  {
    hide Cells, ReadCells;
    var body := Cells(row, casts) + ")" + rest;
    assert indent + "(" + Cells(row, casts) + ")" + rest == indent + ("(" + body);
    SkipBlanks(indent, "(" + body);
    assert ("(" + body)[1..] == body;
    CellsRoundTrip(row, casts, rest);
  }

  lemma {:induction false} LinesFromStep(
    indent: string, casts: seq<string>, rows: seq<seq<string>>, i: nat, rest: string)
    requires i < |rows| && Shaped(rows, casts)
    ensures LinesFrom(indent, casts, rows, i) + rest ==
      indent + "(" + Cells(rows[i], casts) + ")" +
        (ListSeparator(i, |rows|) + "\n" + (LinesFrom(indent, casts, rows, i + 1) + rest))
  {
    hide Cells, ListSeparator;
    var head := indent + "(" + Cells(rows[i], casts) + ")";
    var separator := ListSeparator(i, |rows|);
    var later := LinesFrom(indent, casts, rows, i + 1);
    assert LinesFrom(indent, casts, rows, i) == head + separator + "\n" + later;
    assert head + separator + "\n" + later + rest == head + (separator + "\n" + (later + rest));
  }

  lemma {:induction false} SeparatorRead(later: string)
    ensures
      var after := Skip("," + "\n" + later);
      StartsWith(after, ',') && ReadRows(after[1..]) == ReadRows(later)
  {
    hide ReadRows;
    assert "," + "\n" + later == "," + ("\n" + later);
    assert ("," + ("\n" + later))[1..] == "\n" + later;
    SkipBlanks("\n", later);
    ReadRowsSkips("\n" + later, later);
  }

  lemma {:induction false} EndRead(rest: string)
    ensures Skip("" + "\n" + rest) == Skip(rest)
  {
    assert "" + "\n" + rest == "\n" + rest;
    SkipBlanks("\n", rest);
  }

  /** Reading the VALUES rows from the i-th on gives back those rows and what follows them. */
  lemma {:induction false} RowsRoundTrip(indent: string, casts: seq<string>, rows: seq<seq<string>>, i: nat, rest: string)
    requires i < |rows| && Shaped(rows, casts) && Casts(casts)
    requires forall k :: 0 <= k < |indent| ==> Blank(indent[k])
    requires !StartsWith(Skip(rest), ',')
    ensures ReadRows(LinesFrom(indent, casts, rows, i) + rest) == Some((rows[i..], Skip(rest)))
    decreases |rows| - i
  {
    hide Cells, ReadRows, ReadCells, Line, Blank, Cast, Skip, StartsWith, LinesFrom;
    var later := LinesFrom(indent, casts, rows, i + 1) + rest;
    LinesFromStep(indent, casts, rows, i, rest);
    LineRead(indent, casts, rows[i], ListSeparator(i, |rows|) + "\n" + later);
    assert rows[i..] == [rows[i]] + rows[i + 1..];
    if i + 1 == |rows| {
      NoLinesLeft(indent, casts, rows);
      assert later == rest && rows[i..] == [rows[i]];
      EndRead(rest);
    } else {
      SeparatorRead(later);
      RowsRoundTrip(indent, casts, rows, i + 1, rest);
    }
  }

  lemma {:induction false} NoLinesLeft(indent: string, casts: seq<string>, rows: seq<seq<string>>)
    requires Shaped(rows, casts)
    ensures LinesFrom(indent, casts, rows, |rows|) == ""
  {
  }

  lemma {:induction false} ReadRowsSkips(a: string, b: string)
    requires Skip(a) == Skip(b)
    ensures ReadRows(a) == ReadRows(b)
  {
  }

  /** The text of a non-empty VALUES list reads back as its rows, whatever characters they hold. */
  lemma {:induction false} ValuesRoundTrip(indent: string, casts: seq<string>, rows: seq<seq<string>>, rest: string)
    requires rows != [] && Shaped(rows, casts) && Casts(casts)
    requires forall k :: 0 <= k < |indent| ==> Blank(indent[k])
    requires !StartsWith(Skip(rest), ',')
    ensures ReadRows(Lines(indent, casts, rows, |rows|) + rest) == Some((rows, Skip(rest)))
  {
    hide ReadRows, Line;
    LinesAreLinesFrom(indent, casts, rows, |rows|);
    assert LinesFrom(indent, casts, rows, |rows|) == "";
    assert Lines(indent, casts, rows, |rows|) == Lines(indent, casts, rows, |rows|) + "";
    RowsRoundTrip(indent, casts, rows, 0, rest);
    assert rows[0..] == rows;
  }
}

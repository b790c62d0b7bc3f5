/** The statements of a roster sync as text, built row by row, and what their
    VALUES lists read back as (internal/store/roster_sync.go). */
module RosterSql {
  import opened Wrappers
  import opened Roster
  import opened SqlText

  const INDENT := "    "
  const DEEP_INDENT := "        "

  function PlainCasts(): seq<string> { ["", "", "", ""] }
  function RenameCasts(): seq<string> { ["::uuid", ""] }

  // ---------- the rows each statement lists ----------

  function RenameRows(renames: seq<(string, string)>): (rows: seq<seq<string>>)
    ensures |rows| == |renames|
    ensures forall i :: 0 <= i < |rows| ==> rows[i] == [renames[i].0, renames[i].1]
  {
    seq(|renames|, i requires 0 <= i < |renames| => [renames[i].0, renames[i].1])
  }

  function LeagueRows(ls: seq<League>): (rows: seq<seq<string>>)
    ensures |rows| == |ls|
    ensures forall i :: 0 <= i < |rows| ==> rows[i] == [ls[i].name, ls[i].shortName]
  {
    seq(|ls|, i requires 0 <= i < |ls| => [ls[i].name, ls[i].shortName])
  }

  function ClubRows(es: seq<Entry>): (rows: seq<seq<string>>)
    ensures |rows| == |es|
    ensures forall i :: 0 <= i < |rows| ==> rows[i] == [es[i].club.name, es[i].club.shortName, es[i].club.crestUrl, es[i].league]
  {
    seq(|es|, i requires 0 <= i < |es| => [es[i].club.name, es[i].club.shortName, es[i].club.crestUrl, es[i].league])
  }

  function LeagueNameRows(ls: seq<League>): (rows: seq<seq<string>>)
    ensures |rows| == |ls|
    ensures forall i :: 0 <= i < |rows| ==> rows[i] == [ls[i].name]
  {
    seq(|ls|, i requires 0 <= i < |ls| => [ls[i].name])
  }

  function ClubNameRows(es: seq<Entry>): (rows: seq<seq<string>>)
    ensures |rows| == |es|
    ensures forall i :: 0 <= i < |rows| ==> rows[i] == [es[i].club.name]
  {
    seq(|es|, i requires 0 <= i < |es| => [es[i].club.name])
  }

  // ---------- the text around them ----------

  /** Text that cannot be read as one more row: what may follow a VALUES list. */
  ghost predicate EndsList(tail: string) {
    !StartsWith(Skip(tail), ',')
  }

  /** A closing parenthesis or a keyword ends the list, after any blanks. */
  lemma {:induction false} ListEndsHere(blanks: string, c: char, text: string)
    requires (forall i :: 0 <= i < |blanks| ==> Blank(blanks[i])) && !Blank(c) && c != ','
    ensures EndsList(blanks + [c] + text)
  {
    assert blanks + [c] + text == blanks + ([c] + text);
    SkipBlanks(blanks, [c] + text);
  }

  /** The text is the head, then a VALUES list that reads back as the rows, then the tail. */
  ghost predicate Lists(text: string, head: string, rows: seq<seq<string>>, tail: string) {
    head <= text && ReadRows(text[|head|..]) == Some((rows, Skip(tail)))
  }

  lemma {:induction false} ListReadsBack(
    head: string, indent: string, casts: seq<string>, rows: seq<seq<string>>, tail: string)
    requires rows != [] && Shaped(rows, casts) && Casts(casts) && EndsList(tail)
    requires forall k :: 0 <= k < |indent| ==> Blank(indent[k])
    ensures Lists(head + Lines(indent, casts, rows, |rows|) + tail, head, rows, tail)
  {
    hide ReadRows, Lines, Skip, Blank;
    var text := head + Lines(indent, casts, rows, |rows|) + tail;
    assert text[|head|..] == Lines(indent, casts, rows, |rows|) + tail;
    ValuesRoundTrip(indent, casts, rows, tail);
  }

  // ---------- the builders ----------

  lemma {:induction false} TwoCells(first: string, second: string, casts: seq<string>)
    requires |casts| == 2
    ensures Cells([first, second], casts) == QuoteSQL(first) + casts[0] + ", " + (QuoteSQL(second) + casts[1])
  {
    hide QuoteSQL;
    assert [first, second][1..] == [second];
  }

  /** A rename's row as text: the id cast to its type, then the name. */
  lemma {:induction false} RenameLine(id: string, to: string, separator: string)
    ensures Line(INDENT, RenameCasts(), [id, to], separator) ==
      "    (" + (QuoteSQL(id) + "::uuid" + ", " + (QuoteSQL(to) + "")) + ")" + separator + "\n"
  {
    hide QuoteSQL, Cells;
    TwoCells(id, to, RenameCasts());
  }

  /** renameClubsSQL. */
  method RenameClubsSQL(head: string, renames: seq<(string, string)>, tail: string) returns (sql: string)
    requires EndsList(tail)
    ensures if renames == [] then sql == head + tail else Lists(sql, head, RenameRows(renames), tail)
  {
    hide Lists, Line, EndsList;
    ghost var rows := RenameRows(renames);
    sql := head;
    for i := 0 to |renames|
      invariant sql == head + Lines(INDENT, RenameCasts(), rows, i)
    {
      sql := sql + Line(INDENT, RenameCasts(), [renames[i].0, renames[i].1], ListSeparator(i, |renames|));
    }
    sql := sql + tail;
    if renames != [] {
      ListReadsBack(head, INDENT, RenameCasts(), rows, tail);
    }
  }

  /** upsertLeaguesSQL. */
  method UpsertLeaguesSQL(head: string, ls: seq<League>, tail: string) returns (sql: string)
    requires EndsList(tail)
    ensures if ls == [] then sql == head + tail else Lists(sql, head, LeagueRows(ls), tail)
  {
    hide Lists, Line, EndsList;
    ghost var rows := LeagueRows(ls);
    sql := head;
    for i := 0 to |ls|
      invariant sql == head + Lines(INDENT, PlainCasts(), rows, i)
    {
      sql := sql + Line(INDENT, PlainCasts(), [ls[i].name, ls[i].shortName], ListSeparator(i, |ls|));
    }
    sql := sql + tail;
    if ls != [] {
      ListReadsBack(head, INDENT, PlainCasts(), rows, tail);
    }
  }

  /** upsertClubsSQL. */
  method UpsertClubsSQL(head: string, es: seq<Entry>, tail: string) returns (sql: string)
    requires EndsList(tail)
    ensures if es == [] then sql == head + tail else Lists(sql, head, ClubRows(es), tail)
  {
    hide Lists, Line, EndsList;
    ghost var rows := ClubRows(es);
    sql := head;
    for i := 0 to |es|
      invariant sql == head + Lines(INDENT, PlainCasts(), rows, i)
    {
      var club := es[i].club;
      sql := sql + Line(INDENT, PlainCasts(), [club.name, club.shortName, club.crestUrl, es[i].league],
                        ListSeparator(i, |es|));
    }
    sql := sql + tail;
    if es != [] {
      ListReadsBack(head, INDENT, PlainCasts(), rows, tail);
    }
  }

  /** What follows the league names in the detach statement. */
  function DetachRest(middle: string, es: seq<Entry>, tail: string): string {
    middle + Lines(DEEP_INDENT, PlainCasts(), ClubNameRows(es), |es|) + tail
  }

  /** The club names are the second list of the detach statement. */
  lemma {:induction false} ClubNamesFollow(middle: string, es: seq<Entry>, tail: string)
    requires EndsList(tail)
    ensures
      if es == [] then DetachRest(middle, es, tail) == middle + tail
      else Lists(DetachRest(middle, es, tail), middle, ClubNameRows(es), tail)
  {
    hide Lists, EndsList, Lines;
    NoLines(DEEP_INDENT, PlainCasts());
    if es != [] {
      ListReadsBack(middle, DEEP_INDENT, PlainCasts(), ClubNameRows(es), tail);
    }
  }

  /** The league names are the first, if the middle cannot be read as one more row. */
  lemma {:induction false} LeagueNamesLead(head: string, ls: seq<League>, rest: string)
    requires EndsList(rest)
    ensures
      var sql := head + Lines(DEEP_INDENT, PlainCasts(), LeagueNameRows(ls), |ls|) + rest;
      if ls == [] then sql == head + rest else Lists(sql, head, LeagueNameRows(ls), rest)
  {
    hide Lists, EndsList, Lines;
    NoLines(DEEP_INDENT, PlainCasts());
    if ls != [] {
      ListReadsBack(head, DEEP_INDENT, PlainCasts(), LeagueNameRows(ls), rest);
    }
  }

  /** detachDepartedClubsSQL: two lists, one after the other. */
  method DetachDepartedClubsSQL(head: string, ls: seq<League>, middle: string, es: seq<Entry>, tail: string)
    returns (sql: string)
    requires EndsList(tail) && forall text: string :: EndsList(middle + text)
    ensures
      var rest := DetachRest(middle, es, tail);
      && (if ls == [] then sql == head + rest else Lists(sql, head, LeagueNameRows(ls), rest))
      && (if es == [] then rest == middle + tail else Lists(rest, middle, ClubNameRows(es), tail))
  {
    hide Lists, Line, Lines, EndsList;
    sql := AppendNames(head, LeagueNameRows(ls));
    ghost var names := Lines(DEEP_INDENT, PlainCasts(), LeagueNameRows(ls), |ls|);
    ghost var clubs := Lines(DEEP_INDENT, PlainCasts(), ClubNameRows(es), |es|);
    sql := AppendNames(sql + middle, ClubNameRows(es));
    sql := sql + tail;
    ghost var rest := DetachRest(middle, es, tail);
    assert rest == middle + (clubs + tail);
    assert sql == head + names + rest;
    LeagueNamesLead(head, ls, rest);
    ClubNamesFollow(middle, es, tail);
  }

  lemma {:induction false} NoLines(indent: string, casts: seq<string>)
    ensures Lines(indent, casts, LeagueNameRows([]), 0) == "" && Lines(indent, casts, ClubNameRows([]), 0) == ""
  {
  }

  /** One loop of detachDepartedClubsSQL. */
  method AppendNames(head: string, rows: seq<seq<string>>) returns (sql: string)
    requires Shaped(rows, PlainCasts())
    ensures sql == head + Lines(DEEP_INDENT, PlainCasts(), rows, |rows|)
  {
    hide Line;
    sql := head;
    for i := 0 to |rows|
      invariant sql == head + Lines(DEEP_INDENT, PlainCasts(), rows, i)
    {
      sql := sql + Line(DEEP_INDENT, PlainCasts(), rows[i], ListSeparator(i, |rows|));
    }
  }
}

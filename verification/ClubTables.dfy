/** The clubs and leagues tables and what one SQL statement does to them
    (migrations/0001_init_schema.up.sql, migrations/0008_add_leagues.up.sql).
    A table is its rows in (created_at, id) order; INSERT appends. */
module ClubTables {
  import opened Wrappers
  import opened Text
  import opened Roster
  import opened RosterLookup

  datatype ClubRow = ClubRow(
    id: nat, name: string, shortName: Option<string>, crestUrl: Option<string>, leagueId: Option<nat>)

  datatype LeagueRow = LeagueRow(id: nat, name: string, shortName: Option<string>)

  datatype Tables = Tables(clubs: seq<ClubRow>, leagues: seq<LeagueRow>, nextClub: nat, nextLeague: nat)

  // ---------- constraints ----------

  /** The unique index on lower(name) of clubs. */
  ghost predicate UniqueClubNames(clubs: seq<ClubRow>) {
    forall i, j :: 0 <= i < j < |clubs| ==> Lower(clubs[i].name) != Lower(clubs[j].name)
  }

  ghost predicate UniqueLeagueNames(leagues: seq<LeagueRow>) {
    forall i, j :: 0 <= i < j < |leagues| ==> Lower(leagues[i].name) != Lower(leagues[j].name)
  }

  ghost predicate ClubIds(clubs: seq<ClubRow>, next: nat) {
    && (forall i :: 0 <= i < |clubs| ==> clubs[i].id < next)
    && (forall i, j :: 0 <= i < j < |clubs| ==> clubs[i].id != clubs[j].id)
  }

  ghost predicate LeagueIds(leagues: seq<LeagueRow>, next: nat) {
    && (forall i :: 0 <= i < |leagues| ==> leagues[i].id < next)
    && (forall i, j :: 0 <= i < j < |leagues| ==> leagues[i].id != leagues[j].id)
  }

  /** clubs.league_id references leagues. */
  ghost predicate LeagueReferences(clubs: seq<ClubRow>, leagues: seq<LeagueRow>) {
    forall i :: 0 <= i < |clubs| && clubs[i].leagueId.Some? ==>
      exists l :: 0 <= l < |leagues| && leagues[l].id == clubs[i].leagueId.value
  }

  ghost predicate ValidTables(t: Tables) {
    && UniqueClubNames(t.clubs) && ClubIds(t.clubs, t.nextClub)
    && UniqueLeagueNames(t.leagues) && LeagueIds(t.leagues, t.nextLeague)
    && LeagueReferences(t.clubs, t.leagues)
  }

  // ---------- finding rows ----------

  /** Position of the row with this lower-cased name, or the length of the table. */
  function ClubIndex(clubs: seq<ClubRow>, key: string): (i: nat)
    ensures i <= |clubs|
    ensures i < |clubs| ==> Lower(clubs[i].name) == key
    ensures forall j :: 0 <= j < i ==> Lower(clubs[j].name) != key
  {
    if clubs == [] then 0
    else if Lower(clubs[0].name) == key then 0
    else 1 + ClubIndex(clubs[1..], key)
  }

  function LeagueIndex(leagues: seq<LeagueRow>, key: string): (i: nat)
    ensures i <= |leagues|
    ensures i < |leagues| ==> Lower(leagues[i].name) == key
    ensures forall j :: 0 <= j < i ==> Lower(leagues[j].name) != key
  {
    if leagues == [] then 0
    else if Lower(leagues[0].name) == key then 0
    else 1 + LeagueIndex(leagues[1..], key)
  }

  /** (SELECT id FROM leagues WHERE lower(name) = key). */
  function LeagueId(leagues: seq<LeagueRow>, key: string): Option<nat> {
    var i := LeagueIndex(leagues, key);
    if i < |leagues| then Some(leagues[i].id) else None
  }

  /** Position of the entry with this lower-cased name, or the number of entries. */
  function EntryIndex(es: seq<Entry>, key: string): (i: nat)
    ensures i <= |es|
    ensures i < |es| ==> Lower(es[i].club.name) == key
    ensures forall j :: 0 <= j < i ==> Lower(es[j].club.name) != key
  {
    if es == [] then 0
    else if Lower(es[0].club.name) == key then 0
    else 1 + EntryIndex(es[1..], key)
  }

  function RosterLeagueIndex(ls: seq<League>, key: string): (i: nat)
    ensures i <= |ls|
    ensures i < |ls| ==> Lower(ls[i].name) == key
    ensures forall j :: 0 <= j < i ==> Lower(ls[j].name) != key
  {
    if ls == [] then 0
    else if Lower(ls[0].name) == key then 0
    else 1 + RosterLeagueIndex(ls[1..], key)
  }

  function Coalesce<T>(a: Option<T>, b: Option<T>): Option<T> {
    if a.Some? then a else b
  }

  /** NULLIF(s, ''). */
  function NullIfEmpty(s: string): Option<string> {
    if s == "" then None else Some(s)
  }

  // ---------- GetOrCreateClub ----------

  /** What the INSERT .. ON CONFLICT of GetOrCreateClub proposes for a spelling. */
  function Proposed(r: Roster, leagues: seq<LeagueRow>, id: nat, name: string): ClubRow {
    match Lookup(r, name)
    case Some(e) =>
      ClubRow(id, e.club.name, Some(e.club.shortName), NullIfEmpty(e.club.crestUrl), LeagueId(leagues, Lower(e.league)))
    case None => ClubRow(id, TidyClubName(name), None, None, None)
  }

  /** The stored row after ON CONFLICT DO UPDATE: the name stays, columns are filled where proposed. */
  function Merge(stored: ClubRow, proposed: ClubRow): ClubRow {
    stored.(
      shortName := Coalesce(proposed.shortName, stored.shortName),
      crestUrl := Coalesce(proposed.crestUrl, stored.crestUrl),
      leagueId := Coalesce(proposed.leagueId, stored.leagueId))
  }

  /** GetOrCreateClub: the new tables and the id returned. */
  function GetOrCreate(r: Roster, t: Tables, name: string): (Tables, nat) {
    var proposed := Proposed(r, t.leagues, t.nextClub, name);
    var i := ClubIndex(t.clubs, Lower(proposed.name));
    if i < |t.clubs| then
      (t.(clubs := t.clubs[i := Merge(t.clubs[i], proposed)]), t.clubs[i].id)
    else
      (t.(clubs := t.clubs + [proposed], nextClub := t.nextClub + 1), t.nextClub)
  }

  // ---------- the roster statements ----------

  function StampLeague(row: LeagueRow, ls: seq<League>): LeagueRow {
    var l := RosterLeagueIndex(ls, Lower(row.name));
    if l < |ls| then row.(name := ls[l].name, shortName := Some(ls[l].shortName)) else row
  }

  /** Rows for the leagues among the first n of ls that the table lacks. */
  function NewLeagues(leagues: seq<LeagueRow>, next: nat, ls: seq<League>, n: nat): (rows: seq<LeagueRow>)
    requires n <= |ls|
    ensures |rows| <= n
  {
    if n == 0 then []
    else
      var rows := NewLeagues(leagues, next, ls, n - 1);
      if LeagueIndex(leagues, Lower(ls[n - 1].name)) < |leagues| then rows
      else rows + [LeagueRow(next + |rows|, ls[n - 1].name, Some(ls[n - 1].shortName))]
  }

  /** upsertLeaguesSQL, run for the first n leagues of ls. */
  function LeaguesUpserted(leagues: seq<LeagueRow>, next: nat, ls: seq<League>, n: nat): seq<LeagueRow>
    requires n <= |ls|
  {
    seq(|leagues|, i requires 0 <= i < |leagues| => StampLeague(leagues[i], ls[..n])) + NewLeagues(leagues, next, ls, n)
  }

  /** A club row as the roster wants it. */
  function Stamp(row: ClubRow, e: Entry, leagues: seq<LeagueRow>): ClubRow {
    row.(
      name := e.club.name,
      shortName := Some(e.club.shortName),
      crestUrl := Coalesce(NullIfEmpty(e.club.crestUrl), row.crestUrl),
      leagueId := LeagueId(leagues, Lower(e.league)))
  }

  function StampClub(row: ClubRow, es: seq<Entry>, leagues: seq<LeagueRow>): ClubRow {
    var i := EntryIndex(es, Lower(row.name));
    if i < |es| then Stamp(row, es[i], leagues) else row
  }

  /** Rows for the clubs among the first n entries that the table lacks. */
  function NewClubs(clubs: seq<ClubRow>, next: nat, es: seq<Entry>, leagues: seq<LeagueRow>, n: nat): (rows: seq<ClubRow>)
    requires n <= |es|
    ensures |rows| <= n
  {
    if n == 0 then []
    else
      var rows := NewClubs(clubs, next, es, leagues, n - 1);
      if ClubIndex(clubs, Lower(es[n - 1].club.name)) < |clubs| then rows
      else rows + [Stamp(ClubRow(next + |rows|, "", None, None, None), es[n - 1], leagues)]
  }

  /** upsertClubsSQL, run for the first n entries. */
  function ClubsUpserted(clubs: seq<ClubRow>, next: nat, es: seq<Entry>, leagues: seq<LeagueRow>, n: nat): seq<ClubRow>
    requires n <= |es|
  {
    seq(|clubs|, i requires 0 <= i < |clubs| => StampClub(clubs[i], es[..n], leagues))
    + NewClubs(clubs, next, es, leagues, n)
  }

  predicate InRosterLeague(row: ClubRow, ls: seq<League>, leagues: seq<LeagueRow>) {
    row.leagueId.Some? && exists l :: 0 <= l < |ls| && LeagueId(leagues, Lower(ls[l].name)) == row.leagueId
  }

  /** The row is in a roster league but is no roster club. */
  predicate Departed(row: ClubRow, es: seq<Entry>, ls: seq<League>, leagues: seq<LeagueRow>) {
    InRosterLeague(row, ls, leagues) && EntryIndex(es, Lower(row.name)) == |es|
  }

  function DetachOne(row: ClubRow, es: seq<Entry>, ls: seq<League>, leagues: seq<LeagueRow>): ClubRow {
    if Departed(row, es, ls, leagues) then row.(leagueId := None) else row
  }

  /** detachDepartedClubsSQL. */
  function Detached(clubs: seq<ClubRow>, es: seq<Entry>, ls: seq<League>, leagues: seq<LeagueRow>): seq<ClubRow> {
    seq(|clubs|, i requires 0 <= i < |clubs| => DetachOne(clubs[i], es, ls, leagues))
  }

  function DetachedCount(clubs: seq<ClubRow>, es: seq<Entry>, ls: seq<League>, leagues: seq<LeagueRow>): nat {
    if clubs == [] then 0
    else
      DetachedCount(clubs[..|clubs| - 1], es, ls, leagues)
      + (if Departed(clubs[|clubs| - 1], es, ls, leagues) then 1 else 0)
  }
}

/** The clubs and leagues tables of the store, GetOrCreateClub, and the roster
    sync run as one batch (internal/store/clubs.go, internal/store/roster_sync.go). */
module RosterSync {
  import opened Wrappers
  import opened Text
  import opened Roster
  import opened RosterLookup
  import opened ClubTables
  import opened RenamePlan
  import opened RosterStatements

  class ClubStore {
    const roster: Roster
    var clubs: seq<ClubRow>
    var leagues: seq<LeagueRow>
    var nextClub: nat
    var nextLeague: nat

    /** The roster is loaded and the unique indexes and references hold. */
    ghost predicate Valid()
      reads this
    {
      Loaded(roster) && ValidTables(State())
    }

    function State(): Tables
      reads this
    {
      Tables(clubs, leagues, nextClub, nextLeague)
    }

    constructor (roster: Roster)
      requires Loaded(roster)
      ensures Valid() && this.roster == roster && State() == Tables([], [], 0, 0)
    {
      this.roster := roster;
      clubs, leagues, nextClub, nextLeague := [], [], 0, 0;
    }

    /** The id of the club a spelling names, created if need be. */
    method GetOrCreateClub(spelling: string) returns (id: nat)
      requires Valid()
      modifies this
      ensures Valid()
      ensures (State(), id) == GetOrCreate(roster, old(State()), spelling)
    {
      hide Lookup, Lower, Loaded;
      var name := spelling;
      var shortName, crestUrl, league := None, None, None;
      var entry := Lookup(roster, name);
      if entry.Some? {
        name := entry.value.club.name;
        shortName := Some(entry.value.club.shortName);
        league := LeagueId(leagues, Lower(entry.value.league));
        if entry.value.club.crestUrl != "" {
          crestUrl := Some(entry.value.club.crestUrl);
        }
      } else {
        name := TidyClubName(name);
      }
      var i := ClubIndex(clubs, Lower(name));
      GetOrCreateValid(roster, State(), spelling);
      if i < |clubs| {
        id := clubs[i].id;
        clubs := clubs[i := clubs[i].(
          shortName := Coalesce(shortName, clubs[i].shortName),
          crestUrl := Coalesce(crestUrl, clubs[i].crestUrl),
          leagueId := Coalesce(league, clubs[i].leagueId))];
      } else {
        id := nextClub;
        clubs := clubs + [ClubRow(nextClub, name, shortName, crestUrl, league)];
        nextClub := nextClub + 1;
      }
    }

    /** The rename statement. NOT EXISTS looks at the rows as the statement found them; the unique
        index holds after every single row. */
    method RenameClubs(renames: seq<Rename>) returns (renamedIds: set<nat>)
      requires Valid() && renames == Renames(roster, clubs, |clubs|)
      modifies `clubs
      ensures clubs == Renamed(roster, old(clubs)) && UniqueClubNames(clubs)
      ensures renamedIds == Ids(renames)
    {
      hide Lookup, Lower, Loaded, Elected, UniqueClubNames, CanonicalName, AfterRenames, Renames, NameTaken, ClubIdSet;
      var snapshot := clubs;
      renamedIds := {};
      AfterNoRenames(roster, snapshot);
      for i := 0 to |snapshot|
        invariant clubs == AfterRenames(roster, snapshot, ClubIdSet(snapshot[..i]))
        invariant UniqueClubNames(clubs)
        invariant renamedIds == Ids(Renames(roster, snapshot, i))
      {
        var x := FindRename(renames, snapshot[i].id);
        ElectedFound(roster, snapshot, i, x);
        RowVisited(roster, snapshot, i);
        IdsStep(roster, snapshot, i);
        if x < |renames| && !NameTaken(snapshot, Lower(renames[x].to), snapshot[i].id) {
          clubs := clubs[i := clubs[i].(name := renames[x].to)];
          renamedIds := renamedIds + {snapshot[i].id};
        }
        EverySubsetIsUnique(roster, snapshot, ClubIdSet(snapshot[..i + 1]));
      }
      assert snapshot[..|snapshot|] == snapshot;
    }

    /** The league upsert, one league at a time; every league inserts or updates a row. */
    method UpsertLeagues() returns (affected: nat)
      requires Loaded(roster) && UniqueLeagueNames(leagues)
      modifies `leagues, `nextLeague
      ensures leagues == LeaguesUpserted(old(leagues), old(nextLeague), roster.leagues, |roster.leagues|)
      ensures nextLeague ==
        old(nextLeague) + |NewLeagues(old(leagues), old(nextLeague), roster.leagues, |roster.leagues|)|
      ensures affected == |roster.leagues|
    {
      hide Lower, Loaded, LeaguesUpserted, UniqueLeagueNames, NewLeagues, DistinctLeagues;
      RosterNamesDistinct(roster);
      ghost var before, next := leagues, nextLeague;
      UpsertNoLeague(before, next, roster.leagues);
      LeagueUpsertSizes(before, next, roster.leagues, 0);
      affected := 0;
      for n := 0 to |roster.leagues|
        invariant leagues == LeaguesUpserted(before, next, roster.leagues, n)
        invariant nextLeague == next + |NewLeagues(before, next, roster.leagues, n)|
        invariant UniqueLeagueNames(leagues) && affected == n
      {
        var league := roster.leagues[n];
        UpsertLeaguesStep(before, next, roster.leagues, n);
        UpsertLeagueUnique(leagues, nextLeague, league);
        LeagueUpsertSizes(before, next, roster.leagues, n);
        LeagueUpsertSizes(before, next, roster.leagues, n + 1);
        var i := LeagueIndex(leagues, Lower(league.name));
        if i < |leagues| {
          leagues := leagues[i := leagues[i].(name := league.name, shortName := Some(league.shortName))];
        } else {
          leagues := leagues + [LeagueRow(nextLeague, league.name, Some(league.shortName))];
          nextLeague := nextLeague + 1;
        }
        affected := affected + 1;
      }
    }

    /** The club upsert, one entry at a time; the JOIN finds every entry's league. */
    method UpsertClubs(es: seq<Entry>) returns (affected: nat)
      requires DistinctEntryNames(es) && UniqueClubNames(clubs)
      requires forall e :: e in es ==> LeagueId(leagues, Lower(e.league)).Some?
      modifies `clubs, `nextClub
      ensures clubs == ClubsUpserted(old(clubs), old(nextClub), es, leagues, |es|)
      ensures nextClub == old(nextClub) + |NewClubs(old(clubs), old(nextClub), es, leagues, |es|)|
      ensures affected == |es|
    {
      hide Lower, ClubsUpserted, UniqueClubNames, NewClubs, DistinctEntryNames, LeagueId;
      ghost var before, next := clubs, nextClub;
      UpsertNothing(before, next, es, leagues);
      UpsertSizes(before, next, es, leagues, 0);
      affected := 0;
      for n := 0 to |es|
        invariant clubs == ClubsUpserted(before, next, es, leagues, n)
        invariant nextClub == next + |NewClubs(before, next, es, leagues, n)|
        invariant UniqueClubNames(clubs) && affected == n
      {
        var e := es[n];
        UpsertClubsStep(before, next, es, leagues, n);
        UpsertClubUnique(clubs, nextClub, e, leagues);
        UpsertSizes(before, next, es, leagues, n);
        UpsertSizes(before, next, es, leagues, n + 1);
        var league := LeagueId(leagues, Lower(e.league)).value;
        var crestUrl := NullIfEmpty(e.club.crestUrl);
        var i := ClubIndex(clubs, Lower(e.club.name));
        if i < |clubs| {
          clubs := clubs[i := clubs[i].(
            name := e.club.name,
            shortName := Some(e.club.shortName),
            crestUrl := Coalesce(crestUrl, clubs[i].crestUrl),
            leagueId := Some(league))];
        } else {
          clubs := clubs + [ClubRow(nextClub, e.club.name, Some(e.club.shortName), crestUrl, Some(league))];
          nextClub := nextClub + 1;
        }
        affected := affected + 1;
      }
    }

    /** Clubs that left a roster league lose it. */
    method DetachDeparted(es: seq<Entry>) returns (detached: nat)
      modifies `clubs
      ensures clubs == Detached(old(clubs), es, roster.leagues, leagues)
      ensures detached == DetachedCount(old(clubs), es, roster.leagues, leagues)
    {
      hide Lower, Departed;
      var before := clubs;
      detached := 0;
      for i := 0 to |before|
        invariant |clubs| == |before|
        invariant forall j :: 0 <= j < i ==> clubs[j] == DetachOne(before[j], es, roster.leagues, leagues)
        invariant forall j :: i <= j < |before| ==> clubs[j] == before[j]
        invariant detached == DetachedCount(before[..i], es, roster.leagues, leagues)
      {
        assert before[..i + 1][..i] == before[..i];
        if Departed(before[i], es, roster.leagues, leagues) {
          clubs := clubs[i := clubs[i].(leagueId := None)];
          detached := detached + 1;
        }
      }
      assert before[..|before|] == before;
    }

    /** The statements of a sync, in order. */
    method RunStatements(renames: seq<Rename>) 
      returns (renamedIds: set<nat>, leagueCount: nat, clubCount: nat, detached: nat)
      requires Valid() && renames == Renames(roster, clubs, |clubs|)
      modifies this
      ensures State() == Synced(roster, old(State()))
      ensures Ids(renames) <= renamedIds
      ensures
        var report := Report(roster, old(State()));
        leagueCount == report.leagues && clubCount == report.clubs && detached == report.detached
    {
      hide Lookup, Lower, Loaded, Elected, LeaguesUpserted, ClubsUpserted, NewClubs, NewLeagues, Entries, AfterRenames;
      hide Detached, DetachedCount, Renames, Unmerged, LeagueReferences, ClubIds, LeagueIds, LeagueId, DistinctEntryNames;
      hide UniqueClubNames, UniqueLeagueNames;
      renamedIds := {};
      if |renames| > 0 {
        renamedIds := RenameClubs(renames);
      } else {
        NothingToRename(roster, clubs);
      }
      var es := CollectEntries(roster.leagues);
      RosterNamesDistinct(roster);
      leagueCount := UpsertLeagues();
      EveryLeaguePresent(roster, old(leagues), old(nextLeague));
      clubCount := UpsertClubs(es);
      detached := DetachDeparted(es);
    }

    /** syncRoster: plan the renames, then run the statements as one batch. */
    method SyncRoster() returns (result: SyncResult)
      requires Valid()
      modifies this
      ensures Valid()
      ensures State() == Synced(roster, old(State()))
      ensures result == Report(roster, old(State()))
    {
      hide Lookup, Lower, Loaded, Synced, Renames, Unmerged, LeagueReferences, LeagueIds, Ids;
      SyncedValid(roster, State());
      var renames, unmerged := PlanRenames(roster, clubs);
      var renamedIds, leagueCount, clubCount, detached := RunStatements(renames);
      AllReported(renames, renamedIds);
      var renamed;
      renamed, unmerged := ReportRenames(renames, renamedIds, unmerged);
      result := SyncResult(leagueCount, clubCount, detached, renamed, unmerged);
    }
  }

  /** The planned renames the statement did (or did not) report. */
  function Reported(renames: seq<Rename>, ids: set<nat>, reported: bool): seq<Rename> {
    if renames == [] then []
    else
      var last := renames[|renames| - 1];
      Reported(renames[..|renames| - 1], ids, reported) + (if (last.id in ids) == reported then [last] else [])
  }

  method ReportRenames(renames: seq<Rename>, renamedIds: set<nat>, unmerged0: seq<Rename>)
    returns (renamed: seq<Rename>, unmerged: seq<Rename>)
    ensures renamed == Reported(renames, renamedIds, true)
    ensures unmerged == unmerged0 + Reported(renames, renamedIds, false)
  {
    renamed, unmerged := [], unmerged0;
    for c := 0 to |renames|
      invariant renamed == Reported(renames[..c], renamedIds, true)
      invariant unmerged == unmerged0 + Reported(renames[..c], renamedIds, false)
    {
      assert renames[..c + 1][..c] == renames[..c];
      if renames[c].id in renamedIds {
        renamed := renamed + [renames[c]];
      } else {
        unmerged := unmerged + [renames[c]];
      }
    }
    assert renames[..|renames|] == renames;
  }

  lemma {:induction false} AllReported(renames: seq<Rename>, ids: set<nat>)
    requires Ids(renames) <= ids
    ensures Reported(renames, ids, true) == renames && Reported(renames, ids, false) == []
  {
    if renames != [] {
      var n := |renames| - 1;
      assert renames == renames[..n] + [renames[n]];
      assert forall x :: x in renames ==> x.id in Ids(renames);
      AllReported(renames[..n], ids);
    }
  }

  /** Position of the planned rename of this row, or the number of renames. */
  function FindRename(renames: seq<Rename>, id: nat): (x: nat)
    ensures x <= |renames|
    ensures x < |renames| ==> renames[x].id == id
    ensures forall j :: 0 <= j < x ==> renames[j].id != id
  {
    if renames == [] then 0
    else if renames[0].id == id then 0
    else 1 + FindRename(renames[1..], id)
  }

  /** Another row holds this lower-cased name. */
  predicate NameTaken(clubs: seq<ClubRow>, key: string, id: nat) {
    exists j :: 0 <= j < |clubs| && Lower(clubs[j].name) == key && clubs[j].id != id
  }

  lemma {:induction false} AfterNoRenames(r: Roster, clubs: seq<ClubRow>)
    ensures AfterRenames(r, clubs, ClubIdSet(clubs[..0])) == clubs
    ensures Ids(Renames(r, clubs, 0)) == {}
  {
    hide Elected;
  }

  lemma {:induction false} NothingToRename(r: Roster, clubs: seq<ClubRow>)
    requires Renames(r, clubs, |clubs|) == []
    ensures Renamed(r, clubs) == clubs
  {
    hide Elected, CanonicalName, Misnamed;
    forall i | 0 <= i < |clubs| ensures !Elected(r, clubs, i) {
      RenamesAreElected(r, clubs, |clubs|, RenameOf(r, clubs[i]));
    }
  }

  /** The statement finds a planned rename for row i exactly when it is elected, and lets it through. */
  lemma {:induction false} ElectedFound(r: Roster, clubs: seq<ClubRow>, i: nat, x: nat)
    requires forall a, b :: 0 <= a < b < |clubs| ==> clubs[a].id != clubs[b].id
    requires i < |clubs| && x == FindRename(Renames(r, clubs, |clubs|), clubs[i].id)
    ensures
      var renames := Renames(r, clubs, |clubs|);
      if Elected(r, clubs, i) then
        x < |renames| && renames[x] == RenameOf(r, clubs[i]) && !NameTaken(clubs, Lower(renames[x].to), clubs[i].id)
      else x == |renames|
  {
    hide Lower, Lookup;
    var renames := Renames(r, clubs, |clubs|);
    if x < |renames| {
      RenamesAreElected(r, clubs, |clubs|, renames[x]);
    }
    RenamesAreElected(r, clubs, |clubs|, RenameOf(r, clubs[i]));
  }

  /** Visiting row i adds its rename, if it is elected, to those done. */
  lemma {:induction false} RowVisited(r: Roster, clubs: seq<ClubRow>, i: nat)
    requires forall a, b :: 0 <= a < b < |clubs| ==> clubs[a].id != clubs[b].id
    requires i < |clubs|
    ensures
      var before := AfterRenames(r, clubs, ClubIdSet(clubs[..i]));
      before[i] == clubs[i]
      && AfterRenames(r, clubs, ClubIdSet(clubs[..i + 1])) ==
        if Elected(r, clubs, i) then before[i := clubs[i].(name := CanonicalName(r, clubs[i].name))] else before
  {
    hide Elected, CanonicalName;
    var done, done' := ClubIdSet(clubs[..i]), ClubIdSet(clubs[..i + 1]);
    forall j | 0 <= j < |clubs|
      ensures clubs[j].id in done <==> j < i
      ensures clubs[j].id in done' <==> j <= i
    {
      IdVisited(clubs, i, j);
      IdVisited(clubs, i + 1, j);
    }
  }

  lemma {:induction false} IdVisited(clubs: seq<ClubRow>, i: nat, j: nat)
    requires forall a, b :: 0 <= a < b < |clubs| ==> clubs[a].id != clubs[b].id
    requires i <= |clubs| && j < |clubs|
    ensures clubs[j].id in ClubIdSet(clubs[..i]) <==> j < i
  {
    if j < i {
      assert clubs[j] in clubs[..i];
    }
    if clubs[j].id in ClubIdSet(clubs[..i]) {
      var c :| c in clubs[..i] && c.id == clubs[j].id;
      var k :| 0 <= k < i && clubs[k] == c;
    }
  }

  lemma {:induction false} IdsStep(r: Roster, clubs: seq<ClubRow>, i: nat)
    requires i < |clubs|
    ensures Ids(Renames(r, clubs, i + 1)) == Ids(Renames(r, clubs, i)) + (if Elected(r, clubs, i) then {clubs[i].id} else {})
  {
    hide Elected, CanonicalName;
    PlanStep(r, clubs, i);
  }

  lemma {:induction false} UpsertSizes(clubs: seq<ClubRow>, next: nat, es: seq<Entry>, leagues: seq<LeagueRow>, n: nat)
    requires n <= |es|
    ensures |ClubsUpserted(clubs, next, es, leagues, n)| == |clubs| + |NewClubs(clubs, next, es, leagues, n)|
  {
    hide NewClubs;
  }

  lemma {:induction false} LeagueUpsertSizes(leagues: seq<LeagueRow>, next: nat, ls: seq<League>, n: nat)
    requires n <= |ls|
    ensures |LeaguesUpserted(leagues, next, ls, n)| == |leagues| + |NewLeagues(leagues, next, ls, n)|
  {
    hide NewLeagues;
  }

  lemma {:induction false} EveryLeaguePresent(r: Roster, leagues: seq<LeagueRow>, next: nat)
    requires Loaded(r)
    ensures forall e :: e in Entries(r.leagues) ==>
      LeagueId(LeaguesUpserted(leagues, next, r.leagues, |r.leagues|), Lower(e.league)).Some?
  {
    hide Lower, LeagueId, LeaguesUpserted, Loaded;
    RosterNamesDistinct(r);
    var es := Entries(r.leagues);
    forall e | e in es ensures LeagueId(LeaguesUpserted(leagues, next, r.leagues, |r.leagues|), Lower(e.league)).Some? {
      var i :| 0 <= i < |es| && es[i] == e;
      var l := EntryLeague(r.leagues, i);
      LeaguesPresent(leagues, next, r.leagues, l);
    }
  }

  /** entries(): every club with its league. */
  method CollectEntries(leagues: seq<League>) returns (es: seq<Entry>)
    ensures es == Entries(leagues)
  {
    es := [];
    for l := 0 to |leagues|
      invariant es == Entries(leagues[..l])
    {
      var league := leagues[l];
      EntriesSplit(leagues, l);
      ghost var before := es;
      for c := 0 to |league.clubs|
        invariant es == before + LeagueEntries(league)[..c]
      {
        es := es + [Entry(league.clubs[c], league.name)];
      }
    }
    assert leagues[..|leagues|] == leagues;
  }
}

/** The upserts of a roster sync take the table row by row to its set-wise result,
    and no step breaks the unique index. */
module RosterStatements {
  import opened Wrappers
  import opened Text
  import opened Roster
  import opened RosterLookup
  import opened ClubTables
  import opened RenamePlan

  ghost predicate DistinctEntryNames(es: seq<Entry>) {
    forall i, j :: 0 <= i < j < |es| ==> Lower(es[i].club.name) != Lower(es[j].club.name)
  }

  lemma {:induction false} RosterNamesDistinct(r: Roster)
    requires Loaded(r)
    ensures DistinctEntryNames(Entries(r.leagues)) && DistinctLeagues(r.leagues)
  {
    hide ClubKey, Lower;
    var es := Entries(r.leagues);
    forall i, j | 0 <= i < j < |es| ensures Lower(es[i].club.name) != Lower(es[j].club.name) {
      if Lower(es[i].club.name) == Lower(es[j].club.name) {
        KeyIgnoresCase(es[i].club.name, es[j].club.name);
      }
    }
  }

  // ---------- clubs ----------

  /** A row inserted for the roster belongs to an entry whose name the table lacked. */
  lemma {:induction false} NewClubIs(clubs: seq<ClubRow>, next: nat, es: seq<Entry>, leagues: seq<LeagueRow>, n: nat, k: nat)
    returns (m: nat)
    requires n <= |es| && k < |NewClubs(clubs, next, es, leagues, n)|
    ensures m < n && ClubIndex(clubs, Lower(es[m].club.name)) == |clubs|
    ensures NewClubs(clubs, next, es, leagues, n)[k] == Stamp(ClubRow(next + k, "", None, None, None), es[m], leagues)
  {
    hide Lower, Stamp;
    if k < |NewClubs(clubs, next, es, leagues, n - 1)| {
      m := NewClubIs(clubs, next, es, leagues, n - 1, k);
    } else {
      m := n - 1;
    }
  }

  /** Every entry the table lacked gets a row. */
  lemma {:induction false} NewClubFor(clubs: seq<ClubRow>, next: nat, es: seq<Entry>, leagues: seq<LeagueRow>, n: nat, m: nat)
    returns (k: nat)
    requires m < n <= |es| && ClubIndex(clubs, Lower(es[m].club.name)) == |clubs|
    ensures k < |NewClubs(clubs, next, es, leagues, n)|
    ensures NewClubs(clubs, next, es, leagues, n)[k] == Stamp(ClubRow(next + k, "", None, None, None), es[m], leagues)
  {
    hide Lower, Stamp;
    if m < n - 1 {
      k := NewClubFor(clubs, next, es, leagues, n - 1, m);
    } else {
      k := |NewClubs(clubs, next, es, leagues, n - 1)|;
    }
  }

  lemma {:induction false} StampStep(row: ClubRow, es: seq<Entry>, leagues: seq<LeagueRow>, n: nat)
    requires n < |es| && DistinctEntryNames(es)
    ensures StampClub(row, es[..n + 1], leagues) ==
      if Lower(row.name) == Lower(es[n].club.name) then Stamp(row, es[n], leagues) else StampClub(row, es[..n], leagues)
    ensures Lower(row.name) == Lower(es[n].club.name) ==> StampClub(row, es[..n], leagues) == row
    ensures Lower(StampClub(row, es[..n], leagues).name) == Lower(row.name)
  {
    hide Lower, LeagueId;
    var key := Lower(row.name);
    var a, b := EntryIndex(es[..n], key), EntryIndex(es[..n + 1], key);
    assert forall j :: 0 <= j < n ==> es[..n][j] == es[..n + 1][j] == es[j];
    assert es[..n + 1][n] == es[n];
  }

  /** INSERT .. ON CONFLICT for one entry. */
  function UpsertClub(clubs: seq<ClubRow>, next: nat, e: Entry, leagues: seq<LeagueRow>): seq<ClubRow> {
    var i := ClubIndex(clubs, Lower(e.club.name));
    if i < |clubs| then clubs[i := Stamp(clubs[i], e, leagues)]
    else clubs + [Stamp(ClubRow(next, "", None, None, None), e, leagues)]
  }

  lemma {:induction false} UpsertClubUnique(clubs: seq<ClubRow>, next: nat, e: Entry, leagues: seq<LeagueRow>)
    requires UniqueClubNames(clubs)
    ensures UniqueClubNames(UpsertClub(clubs, next, e, leagues))
  {
    hide Lower, LeagueId;
  }

  lemma {:induction false} UpsertNothing(clubs: seq<ClubRow>, next: nat, es: seq<Entry>, leagues: seq<LeagueRow>)
    ensures ClubsUpserted(clubs, next, es, leagues, 0) == clubs
  {
    hide Lower, LeagueId;
  }

  lemma {:induction false} ClubsUpsertedAt(clubs: seq<ClubRow>, next: nat, es: seq<Entry>, leagues: seq<LeagueRow>, n: nat)
    requires n <= |es|
    ensures
      var after, rows := ClubsUpserted(clubs, next, es, leagues, n), NewClubs(clubs, next, es, leagues, n);
      && |after| == |clubs| + |rows|
      && (forall i :: 0 <= i < |clubs| ==> after[i] == StampClub(clubs[i], es[..n], leagues))
      && (forall p :: |clubs| <= p < |after| ==> after[p] == rows[p - |clubs|])
  {
    hide StampClub, NewClubs;
  }

  /** One more entry: of the old rows, only the one stored under its name is stamped. */
  lemma {:induction false} OldClubsStep(clubs: seq<ClubRow>, next: nat, es: seq<Entry>, leagues: seq<LeagueRow>, n: nat, i: nat)
    requires n < |es| && DistinctEntryNames(es) && i < |clubs|
    ensures
      var done, after := ClubsUpserted(clubs, next, es, leagues, n), ClubsUpserted(clubs, next, es, leagues, n + 1);
      && i < |done| && i < |after|
      && Lower(done[i].name) == Lower(clubs[i].name)
      && after[i] ==
        if Lower(clubs[i].name) == Lower(es[n].club.name) then Stamp(done[i], es[n], leagues) else done[i]
  {
    hide Lower, StampClub, Stamp, NewClubs, ClubsUpserted, DistinctEntryNames;
    ClubsUpsertedAt(clubs, next, es, leagues, n);
    ClubsUpsertedAt(clubs, next, es, leagues, n + 1);
    StampStep(clubs[i], es, leagues, n);
  }

  /** No row added for the first n entries bears the name of the next. */
  lemma {:induction false} AddedClubsDiffer(clubs: seq<ClubRow>, next: nat, es: seq<Entry>, leagues: seq<LeagueRow>, n: nat, p: nat)
    requires n < |es| && DistinctEntryNames(es) && |clubs| <= p < |ClubsUpserted(clubs, next, es, leagues, n)|
    ensures Lower(ClubsUpserted(clubs, next, es, leagues, n)[p].name) != Lower(es[n].club.name)
  {
    hide Lower, Stamp, NewClubs, ClubsUpserted;
    ClubsUpsertedAt(clubs, next, es, leagues, n);
    var m := NewClubIs(clubs, next, es, leagues, n, p - |clubs|);
    StampName(ClubRow(next + (p - |clubs|), "", None, None, None), es[m], leagues);
  }

  lemma {:induction false} ClubIndexIs(clubs: seq<ClubRow>, key: string, i: nat)
    requires i <= |clubs| && (i < |clubs| ==> Lower(clubs[i].name) == key)
    requires forall j :: 0 <= j < i ==> Lower(clubs[j].name) != key
    ensures ClubIndex(clubs, key) == i
  {
    hide Lower;
  }

  /** Running the statement one entry at a time gives the set-wise result. */
  lemma {:induction false} UpsertClubsStep(clubs: seq<ClubRow>, next: nat, es: seq<Entry>, leagues: seq<LeagueRow>, n: nat)
    requires n < |es| && DistinctEntryNames(es) && UniqueClubNames(clubs)
    ensures
      var done := ClubsUpserted(clubs, next, es, leagues, n);
      UpsertClub(done, next + |NewClubs(clubs, next, es, leagues, n)|, es[n], leagues)
        == ClubsUpserted(clubs, next, es, leagues, n + 1)
  {
    hide Lower, Stamp, NewClubs, ClubsUpserted, StampClub, DistinctEntryNames, ClubIndex;
    var key := Lower(es[n].club.name);
    var done := ClubsUpserted(clubs, next, es, leagues, n);
    ClubsUpsertedAt(clubs, next, es, leagues, n);
    ClubsUpsertedAt(clubs, next, es, leagues, n + 1);
    NewClubsStep(clubs, next, es, leagues, n);
    forall i | 0 <= i < |clubs| ensures Lower(done[i].name) == Lower(clubs[i].name) {
      OldClubsStep(clubs, next, es, leagues, n, i);
    }
    forall p | |clubs| <= p < |done| ensures Lower(done[p].name) != key {
      AddedClubsDiffer(clubs, next, es, leagues, n, p);
    }
    var i := ClubIndex(clubs, key);
    ClubIndexIs(done, key, if i < |clubs| then i else |done|);
    forall j | 0 <= j < |clubs| ensures ClubsUpserted(clubs, next, es, leagues, n + 1)[j] ==
        if j == i then Stamp(done[j], es[n], leagues) else done[j] {
      OldClubsStep(clubs, next, es, leagues, n, j);
      assert j != i && i < |clubs| ==> Lower(clubs[j].name) != Lower(clubs[i].name);
    }
  }

  lemma {:induction false} StampName(row: ClubRow, e: Entry, leagues: seq<LeagueRow>)
    ensures Stamp(row, e, leagues).name == e.club.name
  {
  }

  lemma {:induction false} NewClubsStep(clubs: seq<ClubRow>, next: nat, es: seq<Entry>, leagues: seq<LeagueRow>, n: nat)
    requires n < |es|
    ensures
      var rows := NewClubs(clubs, next, es, leagues, n);
      NewClubs(clubs, next, es, leagues, n + 1) ==
        if ClubIndex(clubs, Lower(es[n].club.name)) < |clubs| then rows
        else rows + [Stamp(ClubRow(next + |rows|, "", None, None, None), es[n], leagues)]
  {
  }

  // ---------- leagues ----------

  lemma {:induction false} NewLeagueIs(leagues: seq<LeagueRow>, next: nat, ls: seq<League>, n: nat, k: nat) returns (m: nat)
    requires n <= |ls| && k < |NewLeagues(leagues, next, ls, n)|
    ensures m < n && LeagueIndex(leagues, Lower(ls[m].name)) == |leagues|
    ensures NewLeagues(leagues, next, ls, n)[k] == LeagueRow(next + k, ls[m].name, Some(ls[m].shortName))
  {
    hide Lower;
    if k < |NewLeagues(leagues, next, ls, n - 1)| {
      m := NewLeagueIs(leagues, next, ls, n - 1, k);
    } else {
      m := n - 1;
    }
  }

  lemma {:induction false} NewLeagueFor(leagues: seq<LeagueRow>, next: nat, ls: seq<League>, n: nat, m: nat) returns (k: nat)
    requires m < n <= |ls| && LeagueIndex(leagues, Lower(ls[m].name)) == |leagues|
    ensures k < |NewLeagues(leagues, next, ls, n)|
    ensures NewLeagues(leagues, next, ls, n)[k] == LeagueRow(next + k, ls[m].name, Some(ls[m].shortName))
  {
    hide Lower;
    if m < n - 1 {
      k := NewLeagueFor(leagues, next, ls, n - 1, m);
    } else {
      k := |NewLeagues(leagues, next, ls, n - 1)|;
    }
  }

  lemma {:induction false} StampLeagueStep(row: LeagueRow, ls: seq<League>, n: nat)
    requires n < |ls| && DistinctLeagues(ls)
    ensures StampLeague(row, ls[..n + 1]) ==
      if Lower(row.name) == Lower(ls[n].name) then row.(name := ls[n].name, shortName := Some(ls[n].shortName))
      else StampLeague(row, ls[..n])
    ensures Lower(row.name) == Lower(ls[n].name) ==> StampLeague(row, ls[..n]) == row
    ensures Lower(StampLeague(row, ls[..n]).name) == Lower(row.name)
  {
    hide Lower;
    var key := Lower(row.name);
    var a, b := RosterLeagueIndex(ls[..n], key), RosterLeagueIndex(ls[..n + 1], key);
    assert forall j :: 0 <= j < n ==> ls[..n][j] == ls[..n + 1][j] == ls[j];
    assert ls[..n + 1][n] == ls[n];
  }

  /** INSERT .. ON CONFLICT for one league. */
  function UpsertLeague(leagues: seq<LeagueRow>, next: nat, l: League): seq<LeagueRow> {
    var i := LeagueIndex(leagues, Lower(l.name));
    if i < |leagues| then leagues[i := leagues[i].(name := l.name, shortName := Some(l.shortName))]
    else leagues + [LeagueRow(next, l.name, Some(l.shortName))]
  }

  lemma {:induction false} UpsertLeagueUnique(leagues: seq<LeagueRow>, next: nat, l: League)
    requires UniqueLeagueNames(leagues)
    ensures UniqueLeagueNames(UpsertLeague(leagues, next, l))
  {
    hide Lower;
  }

  lemma {:induction false} UpsertNoLeague(leagues: seq<LeagueRow>, next: nat, ls: seq<League>)
    ensures LeaguesUpserted(leagues, next, ls, 0) == leagues
  {
    hide Lower;
  }

  lemma {:induction false} LeaguesUpsertedAt(leagues: seq<LeagueRow>, next: nat, ls: seq<League>, n: nat)
    requires n <= |ls|
    ensures
      var after, rows := LeaguesUpserted(leagues, next, ls, n), NewLeagues(leagues, next, ls, n);
      && |after| == |leagues| + |rows|
      && (forall i :: 0 <= i < |leagues| ==> after[i] == StampLeague(leagues[i], ls[..n]))
      && (forall p :: |leagues| <= p < |after| ==> after[p] == rows[p - |leagues|])
  {
    hide StampLeague, NewLeagues;
  }

  lemma {:induction false} OldLeaguesStep(leagues: seq<LeagueRow>, next: nat, ls: seq<League>, n: nat, i: nat)
    requires n < |ls| && DistinctLeagues(ls) && i < |leagues|
    ensures
      var done, after := LeaguesUpserted(leagues, next, ls, n), LeaguesUpserted(leagues, next, ls, n + 1);
      && i < |done| && i < |after|
      && Lower(done[i].name) == Lower(leagues[i].name)
      && after[i] ==
        if Lower(leagues[i].name) == Lower(ls[n].name) then done[i].(name := ls[n].name, shortName := Some(ls[n].shortName))
        else done[i]
  {
    hide Lower, StampLeague, NewLeagues, LeaguesUpserted, DistinctLeagues;
    LeaguesUpsertedAt(leagues, next, ls, n);
    LeaguesUpsertedAt(leagues, next, ls, n + 1);
    StampLeagueStep(leagues[i], ls, n);
  }

  lemma {:induction false} AddedLeaguesDiffer(leagues: seq<LeagueRow>, next: nat, ls: seq<League>, n: nat, p: nat)
    requires n < |ls| && DistinctLeagues(ls) && |leagues| <= p < |LeaguesUpserted(leagues, next, ls, n)|
    ensures Lower(LeaguesUpserted(leagues, next, ls, n)[p].name) != Lower(ls[n].name)
  {
    hide Lower, NewLeagues, LeaguesUpserted;
    LeaguesUpsertedAt(leagues, next, ls, n);
    var m := NewLeagueIs(leagues, next, ls, n, p - |leagues|);
  }

  lemma {:induction false} LeagueIndexIs(leagues: seq<LeagueRow>, key: string, i: nat)
    requires i <= |leagues| && (i < |leagues| ==> Lower(leagues[i].name) == key)
    requires forall j :: 0 <= j < i ==> Lower(leagues[j].name) != key
    ensures LeagueIndex(leagues, key) == i
  {
    hide Lower;
  }

  lemma {:induction false} UpsertLeaguesStep(leagues: seq<LeagueRow>, next: nat, ls: seq<League>, n: nat)
    requires n < |ls| && DistinctLeagues(ls) && UniqueLeagueNames(leagues)
    ensures
      var done := LeaguesUpserted(leagues, next, ls, n);
      UpsertLeague(done, next + |NewLeagues(leagues, next, ls, n)|, ls[n]) == LeaguesUpserted(leagues, next, ls, n + 1)
  {
    hide Lower, NewLeagues, LeaguesUpserted, StampLeague, DistinctLeagues, LeagueIndex;
    var key := Lower(ls[n].name);
    var done := LeaguesUpserted(leagues, next, ls, n);
    LeaguesUpsertedAt(leagues, next, ls, n);
    LeaguesUpsertedAt(leagues, next, ls, n + 1);
    NewLeaguesStep(leagues, next, ls, n);
    forall i | 0 <= i < |leagues| ensures Lower(done[i].name) == Lower(leagues[i].name) {
      OldLeaguesStep(leagues, next, ls, n, i);
    }
    forall p | |leagues| <= p < |done| ensures Lower(done[p].name) != key {
      AddedLeaguesDiffer(leagues, next, ls, n, p);
    }
    var i := LeagueIndex(leagues, key);
    LeagueIndexIs(done, key, if i < |leagues| then i else |done|);
    forall j | 0 <= j < |leagues| ensures LeaguesUpserted(leagues, next, ls, n + 1)[j] ==
        if j == i then done[j].(name := ls[n].name, shortName := Some(ls[n].shortName)) else done[j] {
      OldLeaguesStep(leagues, next, ls, n, j);
      assert j != i && i < |leagues| ==> Lower(leagues[j].name) != Lower(leagues[i].name);
    }
  }

  lemma {:induction false} NewLeaguesStep(leagues: seq<LeagueRow>, next: nat, ls: seq<League>, n: nat)
    requires n < |ls|
    ensures
      var rows := NewLeagues(leagues, next, ls, n);
      NewLeagues(leagues, next, ls, n + 1) ==
        if LeagueIndex(leagues, Lower(ls[n].name)) < |leagues| then rows
        else rows + [LeagueRow(next + |rows|, ls[n].name, Some(ls[n].shortName))]
  {
  }

  // ---------- the whole batch ----------

  datatype SyncResult = SyncResult(
    leagues: nat, clubs: nat, detached: nat, renamed: seq<Rename>, unmerged: seq<Rename>)

  ghost function ClubIdSet(clubs: seq<ClubRow>): set<nat> {
    set c | c in clubs :: c.id
  }

  /** The clubs table after the rename statement. */
  ghost function Renamed(r: Roster, clubs: seq<ClubRow>): seq<ClubRow> {
    AfterRenames(r, clubs, ClubIdSet(clubs))
  }

  /** The tables after a roster sync. */
  ghost function Synced(r: Roster, t: Tables): Tables {
    var es := Entries(r.leagues);
    var renamed := Renamed(r, t.clubs);
    var leagues := LeaguesUpserted(t.leagues, t.nextLeague, r.leagues, |r.leagues|);
    var upserted := ClubsUpserted(renamed, t.nextClub, es, leagues, |es|);
    Tables(
      Detached(upserted, es, r.leagues, leagues), leagues,
      t.nextClub + |NewClubs(renamed, t.nextClub, es, leagues, |es|)|,
      t.nextLeague + |NewLeagues(t.leagues, t.nextLeague, r.leagues, |r.leagues|)|)
  }

  ghost function Report(r: Roster, t: Tables): SyncResult {
    var es := Entries(r.leagues);
    var leagues := LeaguesUpserted(t.leagues, t.nextLeague, r.leagues, |r.leagues|);
    var upserted := ClubsUpserted(Renamed(r, t.clubs), t.nextClub, es, leagues, |es|);
    SyncResult(|r.leagues|, |es|, DetachedCount(upserted, es, r.leagues, leagues),
               Renames(r, t.clubs, |t.clubs|), Unmerged(r, t.clubs, |t.clubs|))
  }

  // ---------- the constraints survive ----------

  lemma {:induction false} GetOrCreateValid(r: Roster, t: Tables, name: string)
    requires ValidTables(t)
    ensures ValidTables(GetOrCreate(r, t, name).0)
  {
    hide Lower, Lookup;
    var t' := GetOrCreate(r, t, name).0;
    forall i | 0 <= i < |t'.clubs| && t'.clubs[i].leagueId.Some?
      ensures exists l :: 0 <= l < |t'.leagues| && t'.leagues[l].id == t'.clubs[i].leagueId.value
    {
      var proposed := Proposed(r, t.leagues, t.nextClub, name);
      if proposed.leagueId.Some? {
        var l := LeagueIndex(t.leagues, Lower(Lookup(r, name).value.league));
        assert t.leagues[l].id == proposed.leagueId.value;
      }
    }
  }

  lemma {:induction false} LeaguesUpsertedUnique(leagues: seq<LeagueRow>, next: nat, ls: seq<League>, n: nat)
    requires n <= |ls| && DistinctLeagues(ls) && UniqueLeagueNames(leagues)
    ensures UniqueLeagueNames(LeaguesUpserted(leagues, next, ls, n))
  {
    hide Lower, LeaguesUpserted, UniqueLeagueNames, UpsertLeague;
    if n == 0 {
      UpsertNoLeague(leagues, next, ls);
    } else {
      LeaguesUpsertedUnique(leagues, next, ls, n - 1);
      UpsertLeaguesStep(leagues, next, ls, n - 1);
      UpsertLeagueUnique(LeaguesUpserted(leagues, next, ls, n - 1), next + |NewLeagues(leagues, next, ls, n - 1)|, ls[n - 1]);
    }
  }

  lemma {:induction false} StampKeepsId(row: LeagueRow, ls: seq<League>)
    ensures StampLeague(row, ls).id == row.id
  {
  }

  lemma {:induction false} LeaguesUpsertedIds(leagues: seq<LeagueRow>, next: nat, ls: seq<League>)
    requires LeagueIds(leagues, next)
    ensures LeagueIds(LeaguesUpserted(leagues, next, ls, |ls|), next + |NewLeagues(leagues, next, ls, |ls|)|)
    ensures |leagues| <= |LeaguesUpserted(leagues, next, ls, |ls|)|
    ensures forall i :: 0 <= i < |leagues| ==> LeaguesUpserted(leagues, next, ls, |ls|)[i].id == leagues[i].id
  {
    hide Lower, StampLeague;
    var after := LeaguesUpserted(leagues, next, ls, |ls|);
    forall i | 0 <= i < |leagues| ensures after[i].id == leagues[i].id {
      StampKeepsId(leagues[i], ls[..|ls|]);
    }
    forall i | |leagues| <= i < |after| ensures after[i].id == next + (i - |leagues|) {
      var m := NewLeagueIs(leagues, next, ls, |ls|, i - |leagues|);
    }
  }

  /** After the upsert every roster league has a row. */
  lemma {:induction false} LeaguesPresent(leagues: seq<LeagueRow>, next: nat, ls: seq<League>, m: nat)
    requires m < |ls| && DistinctLeagues(ls)
    ensures LeagueId(LeaguesUpserted(leagues, next, ls, |ls|), Lower(ls[m].name)).Some?
  {
    hide Lower;
    var after := LeaguesUpserted(leagues, next, ls, |ls|);
    var i := LeagueIndex(leagues, Lower(ls[m].name));
    if i < |leagues| {
      assert Lower(after[i].name) == Lower(ls[m].name);
    } else {
      var k := NewLeagueFor(leagues, next, ls, |ls|, m);
      assert Lower(after[|leagues| + k].name) == Lower(ls[m].name);
    }
  }

  lemma {:induction false} ClubsUpsertedUnique(clubs: seq<ClubRow>, next: nat, es: seq<Entry>, leagues: seq<LeagueRow>, n: nat)
    requires n <= |es| && DistinctEntryNames(es) && UniqueClubNames(clubs)
    ensures UniqueClubNames(ClubsUpserted(clubs, next, es, leagues, n))
  {
    hide Lower, ClubsUpserted, UniqueClubNames, UpsertClub;
    if n == 0 {
      UpsertNothing(clubs, next, es, leagues);
    } else {
      ClubsUpsertedUnique(clubs, next, es, leagues, n - 1);
      UpsertClubsStep(clubs, next, es, leagues, n - 1);
      UpsertClubUnique(
        ClubsUpserted(clubs, next, es, leagues, n - 1),
        next + |NewClubs(clubs, next, es, leagues, n - 1)|, es[n - 1], leagues);
    }
  }

  lemma {:induction false} ClubsUpsertedIds(clubs: seq<ClubRow>, next: nat, es: seq<Entry>, leagues: seq<LeagueRow>)
    requires ClubIds(clubs, next)
    ensures ClubIds(ClubsUpserted(clubs, next, es, leagues, |es|), next + |NewClubs(clubs, next, es, leagues, |es|)|)
    ensures forall i :: 0 <= i < |clubs| ==> ClubsUpserted(clubs, next, es, leagues, |es|)[i].id == clubs[i].id
  {
    hide Lower, LeagueId, Coalesce, EntryIndex, NewClubs;
    var after := ClubsUpserted(clubs, next, es, leagues, |es|);
    forall i | |clubs| <= i < |after| ensures after[i].id == next + (i - |clubs|) {
      var m := NewClubIs(clubs, next, es, leagues, |es|, i - |clubs|);
    }
  }

  /** Every stamped league reference is a row's id. */
  lemma {:induction false} ClubsUpsertedReferences(
    clubs: seq<ClubRow>, next: nat, es: seq<Entry>, leagues: seq<LeagueRow>)
    requires LeagueReferences(clubs, leagues)
    ensures LeagueReferences(ClubsUpserted(clubs, next, es, leagues, |es|), leagues)
  {
    hide Lower;
    var after := ClubsUpserted(clubs, next, es, leagues, |es|);
    forall key | LeagueId(leagues, key).Some?
      ensures exists l :: 0 <= l < |leagues| && leagues[l].id == LeagueId(leagues, key).value
    {
      assert leagues[LeagueIndex(leagues, key)].id == LeagueId(leagues, key).value;
    }
    forall i | 0 <= i < |after| && after[i].leagueId.Some?
      ensures exists l :: 0 <= l < |leagues| && leagues[l].id == after[i].leagueId.value
    {
      if i >= |clubs| {
        var m := NewClubIs(clubs, next, es, leagues, |es|, i - |clubs|);
      }
    }
  }

  lemma {:induction false} SyncedValid(r: Roster, t: Tables)
    requires Loaded(r) && ValidTables(t)
    ensures ValidTables(Synced(r, t))
  {
    hide Lower, Lookup, Loaded, Elected, LeaguesUpserted, ClubsUpserted, NewClubs, NewLeagues, Entries, DistinctLeagues;
    var es := Entries(r.leagues);
    RosterNamesDistinct(r);
    var renamed := Renamed(r, t.clubs);
    EverySubsetIsUnique(r, t.clubs, ClubIdSet(t.clubs));
    LeaguesUpsertedUnique(t.leagues, t.nextLeague, r.leagues, |r.leagues|);
    LeaguesUpsertedIds(t.leagues, t.nextLeague, r.leagues);
    var leagues := LeaguesUpserted(t.leagues, t.nextLeague, r.leagues, |r.leagues|);
    ReferencesKept(t.clubs, renamed, t.leagues, leagues);
    ClubsUpsertedUnique(renamed, t.nextClub, es, leagues, |es|);
    ClubsUpsertedIds(renamed, t.nextClub, es, leagues);
    ClubsUpsertedReferences(renamed, t.nextClub, es, leagues);
    DetachedValid(ClubsUpserted(renamed, t.nextClub, es, leagues, |es|), es, r.leagues, leagues,
                  t.nextClub + |NewClubs(renamed, t.nextClub, es, leagues, |es|)|);
  }

  lemma {:induction false} ReferencesKept(
    clubs: seq<ClubRow>, clubs': seq<ClubRow>, leagues: seq<LeagueRow>, leagues': seq<LeagueRow>)
    requires LeagueReferences(clubs, leagues) && |clubs'| == |clubs| && |leagues'| >= |leagues|
    requires forall i :: 0 <= i < |clubs| ==> clubs'[i].leagueId == clubs[i].leagueId
    requires forall i :: 0 <= i < |leagues| ==> leagues'[i].id == leagues[i].id
    ensures LeagueReferences(clubs', leagues')
  {
    forall i | 0 <= i < |clubs'| && clubs'[i].leagueId.Some?
      ensures exists l :: 0 <= l < |leagues'| && leagues'[l].id == clubs'[i].leagueId.value
    {
      var l :| 0 <= l < |leagues| && leagues[l].id == clubs[i].leagueId.value;
      assert leagues'[l].id == leagues[l].id;
    }
  }

  lemma {:induction false} DetachedValid(
    clubs: seq<ClubRow>, es: seq<Entry>, ls: seq<League>, leagues: seq<LeagueRow>, next: nat)
    requires UniqueClubNames(clubs) && ClubIds(clubs, next) && LeagueReferences(clubs, leagues)
    ensures
      var after := Detached(clubs, es, ls, leagues);
      UniqueClubNames(after) && ClubIds(after, next) && LeagueReferences(after, leagues)
  {
    hide Lower, Departed;
    var after := Detached(clubs, es, ls, leagues);
    assert forall i :: 0 <= i < |clubs| ==> after[i].name == clubs[i].name && after[i].id == clubs[i].id;
  }
}

/** What the figures and lists of a roster sync's result say of the tables before and after
    (RosterSyncResult in internal/store/roster_sync.go). */
module SyncReport {
  import opened Wrappers
  import opened Text
  import opened Roster
  import opened RosterLookup
  import opened ClubTables
  import opened RenamePlan
  import opened RosterStatements
  import opened RosterConvergence
  import opened LeagueMembership

  // ---------- detached ----------

  predicate LosesLeague(before: ClubRow, after: ClubRow) {
    before.leagueId.Some? && after.leagueId.None?
  }

  /** The first n rows that have a league before and none after. */
  ghost function LostLeague(before: seq<ClubRow>, after: seq<ClubRow>, n: nat): set<nat>
    requires n <= |before| && n <= |after|
  {
    set i: nat | i < n && LosesLeague(before[i], after[i])
  }

  lemma {:induction false} OneMoreRow(before: seq<ClubRow>, after: seq<ClubRow>, n: nat)
    requires n < |before| && n < |after|
    ensures |LostLeague(before, after, n + 1)| ==
      |LostLeague(before, after, n)| + (if LosesLeague(before[n], after[n]) then 1 else 0)
  {
    hide LosesLeague;
    var smaller, larger := LostLeague(before, after, n), LostLeague(before, after, n + 1);
    assert n !in smaller;
    assert larger == smaller + (if LosesLeague(before[n], after[n]) then {n} else {});
  }

  lemma {:induction false} DetachedCountIs(clubs: seq<ClubRow>, es: seq<Entry>, ls: seq<League>, leagues: seq<LeagueRow>)
    ensures DetachedCount(clubs, es, ls, leagues) == |LostLeague(clubs, Detached(clubs, es, ls, leagues), |clubs|)|
  {
    hide InRosterLeague, Lower;
    var after := Detached(clubs, es, ls, leagues);
    if clubs != [] {
      var n := |clubs| - 1;
      DetachedCountIs(clubs[..n], es, ls, leagues);
      SameLost(clubs[..n], Detached(clubs[..n], es, ls, leagues), clubs, after, n);
      OneMoreRow(clubs, after, n);
      DepartedLoses(clubs[n], es, ls, leagues);
    }
  }

  lemma {:induction false} SameLost(a: seq<ClubRow>, a': seq<ClubRow>, b: seq<ClubRow>, b': seq<ClubRow>, n: nat)
    requires n <= |a| && n <= |a'| && n <= |b| && n <= |b'|
    requires forall i :: 0 <= i < n ==> a[i] == b[i] && a'[i] == b'[i]
    ensures LostLeague(a, a', n) == LostLeague(b, b', n)
  {
  }

  lemma {:induction false} DepartedLoses(row: ClubRow, es: seq<Entry>, ls: seq<League>, leagues: seq<LeagueRow>)
    ensures Departed(row, es, ls, leagues) <==>
      LosesLeague(row, DetachOne(row, es, ls, leagues))
  {
  }

  /** A row of the synced table has lost its league exactly when the detach statement took it. */
  lemma {:induction false} LeagueLostByDetach(r: Roster, t: Tables, i: nat)
    requires Loaded(r) && ValidTables(t) && i < |Synced(r, t).clubs|
    ensures
      var es, t' := Entries(r.leagues), Synced(r, t);
      var upserted := ClubsUpserted(Renamed(r, t.clubs), t.nextClub, es, t'.leagues, |es|);
      && i < |upserted|
      && (LosesLeague(upserted[i], t'.clubs[i]) <==>
          i < |t.clubs| && LosesLeague(t.clubs[i], t'.clubs[i]))
  {
    hide Loaded, ValidTables, Synced, Renamed, Lower, LeagueId, ClubsUpserted, NewClubs, InRosterLeague;
    var es, t' := Entries(r.leagues), Synced(r, t);
    SyncedClubs(r, t);
    ClubsUpsertedAt(Renamed(r, t.clubs), t.nextClub, es, t'.leagues, |es|);
    assert es[..|es|] == es;
    if i < |t.clubs| {
      RenamedKeepsLeague(r, t.clubs, i);
      var renamed := Renamed(r, t.clubs)[i];
      var m := EntryIndex(es, Lower(renamed.name));
      if m < |es| {
        RosterNamesDistinct(r);
        StampIdempotent(renamed, es, r.leagues, t'.leagues);
        RosterClubHasItsLeague(r, t, i, es[m]);
      }
    } else {
      var m := NewRows(r, t, i);
      RosterClubHasItsLeague(r, t, i, es[m]);
    }
  }

  lemma {:induction false} RenamedKeepsLeague(r: Roster, clubs: seq<ClubRow>, i: nat)
    requires i < |clubs|
    ensures |Renamed(r, clubs)| == |clubs| && Renamed(r, clubs)[i].leagueId == clubs[i].leagueId
  {
    hide Elected, CanonicalName;
  }

  /** The detached figure is the number of rows that had a league before the sync and have none after. */
  lemma {:induction false} DetachedRows(r: Roster, t: Tables)
    requires Loaded(r) && ValidTables(t)
    ensures |t.clubs| <= |Synced(r, t).clubs|
    ensures Report(r, t).detached == |LostLeague(t.clubs, Synced(r, t).clubs, |t.clubs|)|
  {
    hide Loaded, ValidTables, Renamed, Lower, LeagueId, ClubsUpserted, NewClubs, LeaguesUpserted, Detached, DetachedCount;
    var es, t' := Entries(r.leagues), Synced(r, t);
    var upserted := ClubsUpserted(Renamed(r, t.clubs), t.nextClub, es, t'.leagues, |es|);
    SyncedClubs(r, t);
    DetachedCountIs(upserted, es, r.leagues, t'.leagues);
    forall i: nat | i < |t'.clubs|
      ensures LosesLeague(upserted[i], t'.clubs[i]) <==>
        i < |t.clubs| && LosesLeague(t.clubs[i], t'.clubs[i])
    {
      LeagueLostByDetach(r, t, i);
    }
    assert LostLeague(upserted, t'.clubs, |upserted|) == LostLeague(t.clubs, t'.clubs, |t.clubs|);
  }

  // ---------- clubs and leagues ----------

  /** Distinct places are as many as there are things placed. */
  lemma {:induction false} PlacesCount(places: seq<nat>)
    requires forall m, n :: 0 <= m < n < |places| ==> places[m] != places[n]
    ensures |set m | 0 <= m < |places| :: places[m]| == |places|
  {
    if places != [] {
      var n := |places| - 1;
      PlacesCount(places[..n]);
      var before := set m | 0 <= m < n :: places[..n][m];
      assert before == set m | 0 <= m < n :: places[m];
      assert (set m | 0 <= m < |places| :: places[m]) == before + {places[n]};
    }
  }

  lemma {:induction false} RowsPlaced(places: seq<nat>, rows: set<nat>)
    requires forall m, n :: 0 <= m < n < |places| ==> places[m] != places[n]
    requires forall m :: 0 <= m < |places| ==> places[m] in rows
    requires forall i :: i in rows ==> i in places
    ensures |rows| == |places|
  {
    PlacesCount(places);
    assert rows == set m | 0 <= m < |places| :: places[m];
  }

  /** The row's name is a roster club's. */
  ghost predicate RosterClub(r: Roster, row: ClubRow) {
    exists e :: e in Entries(r.leagues) && SameUpToCase(row.name, e.club.name)
  }

  /** The row's name is a roster league's. */
  ghost predicate RosterLeague(r: Roster, row: LeagueRow) {
    exists l :: l in r.leagues && SameUpToCase(row.name, l.name)
  }

  lemma {:induction false} RosterClubRow(es: seq<Entry>, clubs: seq<ClubRow>, i: nat, e: Entry) returns (m: nat)
    requires DistinctEntryNames(es) && UniqueClubNames(clubs) && i < |clubs| && e in es
    requires SameUpToCase(clubs[i].name, e.club.name)
    ensures m < |es| && es[m] == e && ClubIndex(clubs, Lower(es[m].club.name)) == i
  {
    hide Lower;
    m :| 0 <= m < |es| && es[m] == e;
    var j := ClubIndex(clubs, Lower(es[m].club.name));
  }

  /** The clubs figure is the number of rows that are roster clubs after the sync. */
  lemma {:induction false} ClubRowsCounted(r: Roster, t: Tables)
    requires Loaded(r) && ValidTables(t)
    ensures
      var clubs := Synced(r, t).clubs;
      Report(r, t).clubs == |set i: nat | i < |clubs| && RosterClub(r, clubs[i])|
  {
    hide Loaded, Synced, Lower, ClubIndex, Entries, ClubsUpserted, LeaguesUpserted, Renamed, Renames, Unmerged, DetachedCount;
    var es, clubs := Entries(r.leagues), Synced(r, t).clubs;
    SyncedValid(r, t);
    RosterNamesDistinct(r);
    forall m | 0 <= m < |es| ensures ClubIndex(clubs, Lower(es[m].club.name)) < |clubs| {
      EntryHasRow(r, t, m);
    }
    var places := seq(|es|, m requires 0 <= m < |es| => ClubIndex(clubs, Lower(es[m].club.name)));
    var rows := set i: nat | i < |clubs| && RosterClub(r, clubs[i]);
    forall i: nat | i in rows ensures i in places {
      var e :| e in es && SameUpToCase(clubs[i].name, e.club.name);
      var m := RosterClubRow(es, clubs, i, e);
      assert places[m] == i;
    }
    forall m | 0 <= m < |es| ensures places[m] in rows {
      assert es[m] in es && SameUpToCase(clubs[places[m]].name, es[m].club.name);
    }
    RowsPlaced(places, rows);
  }

  lemma {:induction false} RosterLeagueRow(ls: seq<League>, leagues: seq<LeagueRow>, i: nat, l: League) returns (m: nat)
    requires DistinctLeagues(ls) && UniqueLeagueNames(leagues) && i < |leagues| && l in ls
    requires SameUpToCase(leagues[i].name, l.name)
    ensures m < |ls| && ls[m] == l && LeagueIndex(leagues, Lower(ls[m].name)) == i
  {
    hide Lower;
    m :| 0 <= m < |ls| && ls[m] == l;
    var j := LeagueIndex(leagues, Lower(ls[m].name));
  }

  /** The leagues figure is the number of rows that are roster leagues after the sync. */
  lemma {:induction false} LeagueRowsCounted(r: Roster, t: Tables)
    requires Loaded(r) && ValidTables(t)
    ensures
      var leagues := Synced(r, t).leagues;
      Report(r, t).leagues == |set i: nat | i < |leagues| && RosterLeague(r, leagues[i])|
  {
    hide Loaded, Synced, Lower, LeagueIndex, Entries, ClubsUpserted, LeaguesUpserted, Renamed, Renames, Unmerged, DetachedCount;
    var ls, leagues := r.leagues, Synced(r, t).leagues;
    SyncedValid(r, t);
    RosterNamesDistinct(r);
    LeaguesHaveRows(r, t);
    var places := seq(|ls|, m requires 0 <= m < |ls| => LeagueIndex(leagues, Lower(ls[m].name)));
    var rows := set i: nat | i < |leagues| && RosterLeague(r, leagues[i]);
    forall i: nat | i in rows ensures i in places {
      var l :| l in ls && SameUpToCase(leagues[i].name, l.name);
      var m := RosterLeagueRow(ls, leagues, i, l);
      assert places[m] == i;
    }
    forall m | 0 <= m < |ls| ensures places[m] in rows {
      assert ls[m] in ls && SameUpToCase(leagues[places[m]].name, ls[m].name);
    }
    RowsPlaced(places, rows);
  }

  lemma {:induction false} LeaguesHaveRows(r: Roster, t: Tables)
    requires Loaded(r)
    ensures forall m :: 0 <= m < |r.leagues| ==>
      LeagueIndex(Synced(r, t).leagues, Lower(r.leagues[m].name)) < |Synced(r, t).leagues|
  {
    hide Loaded, Synced, Lower, LeagueIndex, StampLeague, StampClub, ClubIndex, Departed;
    SyncSettles(r, t);
  }

  // ---------- renamed and unmerged ----------

  lemma {:induction false} NameAfter(r: Roster, t: Tables, i: nat)
    requires Loaded(r) && ValidTables(t) && i < |t.clubs|
    ensures i < |Synced(r, t).clubs| && Synced(r, t).clubs[i].id == t.clubs[i].id
    ensures Elected(r, t.clubs, i) ==> Lookup(r, t.clubs[i].name).Some?
    ensures Synced(r, t).clubs[i].name ==
      if Elected(r, t.clubs, i) then Lookup(r, t.clubs[i].name).value.club.name else t.clubs[i].name
  {
    hide Lower, Lookup, Loaded, Synced, LeagueId, InRosterLeague;
    OldRows(r, t, i);
    var es := Entries(r.leagues);
    var before, renamed := t.clubs[i], Renamed(r, t.clubs)[i];
    var m := EntryIndex(es, Lower(renamed.name));
    RosterNamesDistinct(r);
    assert before in t.clubs && before.id in ClubIdSet(t.clubs);
    if Elected(r, t.clubs, i) {
      LookupFindsEntries(r, before.name);
      var k :| 0 <= k < |es| && es[k] == Lookup(r, before.name).value;
      assert m == k;
    } else if m < |es| {
      if before.name != es[m].club.name {
        CaseVariantElected(r, t.clubs, i, es[m]);
      }
    }
  }

  /** Row i, with its name before and after the sync. */
  ghost function NameChange(t: Tables, t': Tables, i: nat): Rename
    requires i < |t.clubs| && i < |t'.clubs|
  {
    Rename(t.clubs[i].id, t.clubs[i].name, t'.clubs[i].name)
  }

  /** The renamed list holds the rows whose name the sync changed, with the name each had and has. */
  lemma {:induction false} RenamedRows(r: Roster, t: Tables)
    requires Loaded(r) && ValidTables(t)
    ensures |t.clubs| <= |Synced(r, t).clubs|
    ensures forall i: nat :: i < |t.clubs| && Synced(r, t).clubs[i].name != t.clubs[i].name ==>
      NameChange(t, Synced(r, t), i) in Report(r, t).renamed
    ensures forall x :: x in Report(r, t).renamed ==>
      exists i: nat :: i < |t.clubs| && x == NameChange(t, Synced(r, t), i) && x.to != x.from
  {
    hide Lower, Lookup, Loaded, Synced, Elected, ValidTables, Renames, Unmerged;
    NoRowLost(r, t);
    forall i: nat | i < |t.clubs| && Synced(r, t).clubs[i].name != t.clubs[i].name
      ensures NameChange(t, Synced(r, t), i) in Report(r, t).renamed
    {
      NameAfter(r, t, i);
      RenamesAreElected(r, t.clubs, |t.clubs|, NameChange(t, Synced(r, t), i));
    }
    forall x | x in Report(r, t).renamed
      ensures exists i: nat :: i < |t.clubs| && x == NameChange(t, Synced(r, t), i) && x.to != x.from
    {
      RenamesAreElected(r, t.clubs, |t.clubs|, x);
      var i :| 0 <= i < |t.clubs| && Elected(r, t.clubs, i) && x == RenameOf(r, t.clubs[i]);
      NameAfter(r, t, i);
      PlanStep(r, t.clubs, i);
    }
  }

  lemma {:induction false} UnmergedAre(r: Roster, clubs: seq<ClubRow>, n: nat, x: Rename)
    requires n <= |clubs|
    ensures x in Unmerged(r, clubs, n) <==>
      exists i :: 0 <= i < n && Misnamed(r, clubs[i]) && !Elected(r, clubs, i) && x == RenameOf(r, clubs[i])
  {
    hide Lookup, Lower, Elected, Misnamed, CanonicalName, Renames;
    if n > 0 {
      PlanStep(r, clubs, n - 1);
      UnmergedAre(r, clubs, n - 1, x);
    }
  }

  /** The row resolves to a roster club under whose exact name it is not stored. */
  ghost predicate StillMisnamed(r: Roster, row: ClubRow, x: Rename) {
    && x.id == row.id && x.from == row.name && x.to != x.from
    && Lookup(r, row.name).Some? && x.to == Lookup(r, row.name).value.club.name
  }

  /** The unmerged list holds the rows that after the sync still resolve to a club of another name. */
  lemma {:induction false} UnmergedRows(r: Roster, t: Tables, x: Rename)
    requires Loaded(r) && ValidTables(t)
    ensures x in Report(r, t).unmerged <==>
      exists i: nat :: i < |t.clubs| && i < |Synced(r, t).clubs| && StillMisnamed(r, Synced(r, t).clubs[i], x)
  {
    hide Lower, Lookup, Loaded, Synced, Elected, ValidTables, Renames, Unmerged, RowAfter;
    UnmergedAre(r, t.clubs, |t.clubs|, x);
    NoRowLost(r, t);
    forall i: nat | i < |t.clubs|
      ensures StillMisnamed(r, Synced(r, t).clubs[i], x) <==>
        Misnamed(r, t.clubs[i]) && !Elected(r, t.clubs, i) && x == RenameOf(r, t.clubs[i])
    {
      OldRows(r, t, i);
      MisnamedAfter(r, t, i);
      NameAfter(r, t, i);
    }
  }

  /** The changes are listed in the order of the table. */
  ghost predicate InTableOrder(clubs: seq<ClubRow>, xs: seq<Rename>) {
    forall a, b, i, j ::
      (0 <= a < b < |xs| && 0 <= i < |clubs| && 0 <= j < |clubs| && clubs[i].id == xs[a].id && clubs[j].id == xs[b].id)
      ==> i < j
  }

  /** Every change is of one of the first n rows. */
  ghost predicate OfFirst(clubs: seq<ClubRow>, xs: seq<Rename>, n: nat)
    requires n <= |clubs|
  {
    forall x :: x in xs ==> exists i :: 0 <= i < n && clubs[i].id == x.id
  }

  lemma {:induction false} OrderStep(clubs: seq<ClubRow>, xs: seq<Rename>, more: seq<Rename>, n: nat)
    requires n < |clubs| && forall a, b :: 0 <= a < b < |clubs| ==> clubs[a].id != clubs[b].id
    requires InTableOrder(clubs, xs) && OfFirst(clubs, xs, n)
    requires |more| <= 1 && forall x :: x in more ==> x.id == clubs[n].id
    ensures InTableOrder(clubs, xs + more) && OfFirst(clubs, xs + more, n + 1)
  {
    var ys := xs + more;
    forall a, b, i, j | 0 <= a < b < |ys| && 0 <= i < |clubs| && 0 <= j < |clubs|
      && clubs[i].id == ys[a].id && clubs[j].id == ys[b].id ensures i < j
    {
      if b == |xs| {
        assert xs[a] in xs && more[0] in more;
        var k :| 0 <= k < n && clubs[k].id == xs[a].id;
      }
    }
  }

  lemma {:induction false} RenamesInOrder(r: Roster, clubs: seq<ClubRow>, n: nat)
    requires n <= |clubs| && forall a, b :: 0 <= a < b < |clubs| ==> clubs[a].id != clubs[b].id
    ensures InTableOrder(clubs, Renames(r, clubs, n)) && OfFirst(clubs, Renames(r, clubs, n), n)
  {
    hide Elected, Misnamed, CanonicalName, InTableOrder, OfFirst, Unmerged;
    if n == 0 {
      NothingListed(clubs);
    } else {
      RenamesInOrder(r, clubs, n - 1);
      OrderStep(clubs, Renames(r, clubs, n - 1), if Elected(r, clubs, n - 1) then [RenameOf(r, clubs[n - 1])] else [], n - 1);
    }
  }

  lemma {:induction false} UnmergedInOrder(r: Roster, clubs: seq<ClubRow>, n: nat)
    requires n <= |clubs| && forall a, b :: 0 <= a < b < |clubs| ==> clubs[a].id != clubs[b].id
    ensures InTableOrder(clubs, Unmerged(r, clubs, n)) && OfFirst(clubs, Unmerged(r, clubs, n), n)
  {
    hide Elected, Misnamed, CanonicalName, InTableOrder, OfFirst, Renames;
    if n == 0 {
      NothingListed(clubs);
    } else {
      UnmergedInOrder(r, clubs, n - 1);
      var more := if Misnamed(r, clubs[n - 1]) && !Elected(r, clubs, n - 1) then [RenameOf(r, clubs[n - 1])] else [];
      OrderStep(clubs, Unmerged(r, clubs, n - 1), more, n - 1);
    }
  }

  lemma {:induction false} NothingListed(clubs: seq<ClubRow>)
    ensures InTableOrder(clubs, []) && OfFirst(clubs, [], 0)
  {
  }

  /** Renamed and unmerged rows are both reported in table order, each once. */
  lemma {:induction false} ReportInOrder(r: Roster, t: Tables)
    requires ValidTables(t)
    ensures InTableOrder(t.clubs, Report(r, t).renamed) && InTableOrder(t.clubs, Report(r, t).unmerged)
  {
    hide Elected, Renames, Unmerged, InTableOrder;
    RenamesInOrder(r, t.clubs, |t.clubs|);
    UnmergedInOrder(r, t.clubs, |t.clubs|);
  }
}

/** What a roster sync leaves behind, and that one pass is enough. */
module RosterConvergence {
  import opened Wrappers
  import opened Text
  import opened Roster
  import opened RosterLookup
  import opened ClubTables
  import opened RenamePlan
  import opened RosterStatements

  /** The tables say what the roster says. */
  ghost predicate Settled(r: Roster, t: Tables) {
    var es := Entries(r.leagues);
    && (forall m :: 0 <= m < |r.leagues| ==> LeagueIndex(t.leagues, Lower(r.leagues[m].name)) < |t.leagues|)
    && (forall l :: 0 <= l < |t.leagues| ==> StampLeague(t.leagues[l], r.leagues) == t.leagues[l])
    && (forall m :: 0 <= m < |es| ==> ClubIndex(t.clubs, Lower(es[m].club.name)) < |t.clubs|)
    && (forall i :: 0 <= i < |t.clubs| ==> StampClub(t.clubs[i], es, t.leagues) == t.clubs[i])
    && (forall i :: 0 <= i < |t.clubs| ==> !Departed(t.clubs[i], es, r.leagues, t.leagues))
  }

  // ---------- a sync of settled tables changes nothing ----------

  lemma {:induction false} NoNewLeagues(leagues: seq<LeagueRow>, next: nat, ls: seq<League>, n: nat)
    requires n <= |ls| && forall m :: 0 <= m < |ls| ==> LeagueIndex(leagues, Lower(ls[m].name)) < |leagues|
    ensures NewLeagues(leagues, next, ls, n) == []
  {
    hide Lower, LeagueIndex;
    if n > 0 {
      NoNewLeagues(leagues, next, ls, n - 1);
    }
  }

  lemma {:induction false} NoNewClubs(clubs: seq<ClubRow>, next: nat, es: seq<Entry>, leagues: seq<LeagueRow>, n: nat)
    requires n <= |es| && forall m :: 0 <= m < |es| ==> ClubIndex(clubs, Lower(es[m].club.name)) < |clubs|
    ensures NewClubs(clubs, next, es, leagues, n) == []
  {
    hide Lower, ClubIndex, Stamp;
    if n > 0 {
      NoNewClubs(clubs, next, es, leagues, n - 1);
    }
  }

  lemma {:induction false} SettledElectsNone(r: Roster, t: Tables, i: nat)
    requires Loaded(r) && Settled(r, t) && i < |t.clubs|
    ensures !Elected(r, t.clubs, i)
  {
    hide Lower, Lookup, LeagueId, Loaded;
    if Misnamed(r, t.clubs[i]) {
      var es := Entries(r.leagues);
      var e := Lookup(r, t.clubs[i].name).value;
      LookupFindsEntries(r, t.clubs[i].name);
      var m :| 0 <= m < |es| && es[m] == e;
      RosterNamesDistinct(r);
      var j := ClubIndex(t.clubs, Lower(e.club.name));
      assert EntryIndex(es, Lower(t.clubs[j].name)) == m;
      assert StampClub(t.clubs[j], es, t.leagues) == t.clubs[j];
      ExactRowBlocksRenames(r, t.clubs, i, j);
    }
  }

  lemma {:induction false} NoRenames(r: Roster, clubs: seq<ClubRow>, n: nat)
    requires n <= |clubs| && forall i :: 0 <= i < |clubs| ==> !Elected(r, clubs, i)
    ensures Renames(r, clubs, n) == []
  {
    hide Elected, Misnamed, RenameOf, Unmerged;
    if n > 0 {
      PlanStep(r, clubs, n - 1);
      NoRenames(r, clubs, n - 1);
    }
  }

  lemma {:induction false} NothingRenamed(r: Roster, clubs: seq<ClubRow>)
    requires forall i :: 0 <= i < |clubs| ==> !Elected(r, clubs, i)
    ensures Renamed(r, clubs) == clubs
  {
    hide Elected, Misnamed, CanonicalName;
  }

  lemma {:induction false} NoneDetached(clubs: seq<ClubRow>, es: seq<Entry>, ls: seq<League>, leagues: seq<LeagueRow>)
    requires forall i :: 0 <= i < |clubs| ==> !Departed(clubs[i], es, ls, leagues)
    ensures Detached(clubs, es, ls, leagues) == clubs && DetachedCount(clubs, es, ls, leagues) == 0
  {
    hide Departed;
    if clubs != [] {
      NoneDetached(clubs[..|clubs| - 1], es, ls, leagues);
    }
  }

  lemma {:induction false} SettledLeagues(leagues: seq<LeagueRow>, next: nat, ls: seq<League>)
    requires forall m :: 0 <= m < |ls| ==> LeagueIndex(leagues, Lower(ls[m].name)) < |leagues|
    requires forall l :: 0 <= l < |leagues| ==> StampLeague(leagues[l], ls) == leagues[l]
    ensures LeaguesUpserted(leagues, next, ls, |ls|) == leagues && NewLeagues(leagues, next, ls, |ls|) == []
  {
    hide Lower, StampLeague, LeagueIndex, NewLeagues, LeaguesUpserted;
    NoNewLeagues(leagues, next, ls, |ls|);
    LeaguesUpsertedAt(leagues, next, ls, |ls|);
    assert ls[..|ls|] == ls;
  }

  lemma {:induction false} SettledClubs(clubs: seq<ClubRow>, next: nat, es: seq<Entry>, leagues: seq<LeagueRow>)
    requires forall m :: 0 <= m < |es| ==> ClubIndex(clubs, Lower(es[m].club.name)) < |clubs|
    requires forall i :: 0 <= i < |clubs| ==> StampClub(clubs[i], es, leagues) == clubs[i]
    ensures ClubsUpserted(clubs, next, es, leagues, |es|) == clubs && NewClubs(clubs, next, es, leagues, |es|) == []
  {
    hide Lower, StampClub, ClubIndex, NewClubs, ClubsUpserted;
    NoNewClubs(clubs, next, es, leagues, |es|);
    ClubsUpsertedAt(clubs, next, es, leagues, |es|);
    assert es[..|es|] == es;
  }

  lemma {:induction false} SettledIsFixed(r: Roster, t: Tables)
    requires Loaded(r) && Settled(r, t)
    ensures Synced(r, t) == t
    ensures Report(r, t).renamed == [] && Report(r, t).detached == 0
  {
    hide Lower, Lookup, Loaded, Elected, StampClub, StampLeague, Departed, ClubIndex, LeagueIndex, Renames, Unmerged;
    hide Renamed, LeaguesUpserted, ClubsUpserted, NewLeagues, NewClubs, Detached, DetachedCount;
    var es := Entries(r.leagues);
    forall i | 0 <= i < |t.clubs| ensures !Elected(r, t.clubs, i) {
      SettledElectsNone(r, t, i);
    }
    NoRenames(r, t.clubs, |t.clubs|);
    NothingRenamed(r, t.clubs);
    SettledLeagues(t.leagues, t.nextLeague, r.leagues);
    SettledClubs(t.clubs, t.nextClub, es, t.leagues);
    NoneDetached(t.clubs, es, r.leagues, t.leagues);
  }

  // ---------- a sync settles the tables ----------

  lemma {:induction false} LeaguesSettle(r: Roster, leagues: seq<LeagueRow>, next: nat)
    requires Loaded(r)
    ensures
      var after := LeaguesUpserted(leagues, next, r.leagues, |r.leagues|);
      (forall m :: 0 <= m < |r.leagues| ==> LeagueIndex(after, Lower(r.leagues[m].name)) < |after|)
      && (forall l :: 0 <= l < |after| ==> StampLeague(after[l], r.leagues) == after[l])
  {
    hide Lower, Loaded, LeaguesUpserted;
    var ls := r.leagues;
    var after := LeaguesUpserted(leagues, next, ls, |ls|);
    RosterNamesDistinct(r);
    forall m | 0 <= m < |ls| ensures LeagueIndex(after, Lower(ls[m].name)) < |after| {
      LeaguesPresent(leagues, next, ls, m);
    }
    forall l | 0 <= l < |after| ensures StampLeague(after[l], ls) == after[l] {
      LeagueRowSettles(leagues, next, ls, l);
    }
  }

  lemma {:induction false} LeagueRowSettles(leagues: seq<LeagueRow>, next: nat, ls: seq<League>, l: nat)
    requires DistinctLeagues(ls) && l < |LeaguesUpserted(leagues, next, ls, |ls|)|
    ensures StampLeague(LeaguesUpserted(leagues, next, ls, |ls|)[l], ls) == LeaguesUpserted(leagues, next, ls, |ls|)[l]
  {
    hide Lower;
    assert ls[..|ls|] == ls;
    if l >= |leagues| {
      var m := NewLeagueIs(leagues, next, ls, |ls|, l - |leagues|);
      assert RosterLeagueIndex(ls, Lower(ls[m].name)) == m;
    }
  }

  lemma {:induction false} StampIdempotent(row: ClubRow, es: seq<Entry>, ls: seq<League>, leagues: seq<LeagueRow>)
    requires DistinctEntryNames(es)
    ensures
      var after := DetachOne(StampClub(row, es, leagues), es, ls, leagues);
      StampClub(after, es, leagues) == after && !Departed(after, es, ls, leagues)
      && Lower(after.name) == Lower(row.name) && after.id == row.id
  {
    hide Lower, LeagueId;
  }

  /** Row i of the synced table. */
  ghost function RowAfter(r: Roster, t: Tables, i: nat): ClubRow
    requires i < |t.clubs|
  {
    var es := Entries(r.leagues);
    var leagues := Synced(r, t).leagues;
    DetachOne(StampClub(Renamed(r, t.clubs)[i], es, leagues), es, r.leagues, leagues)
  }

  /** The synced clubs table, before and after the rows without a roster club lose their league. */
  lemma {:induction false} SyncedClubs(r: Roster, t: Tables)
    ensures
      var es := Entries(r.leagues);
      var t' := Synced(r, t);
      var upserted := ClubsUpserted(Renamed(r, t.clubs), t.nextClub, es, t'.leagues, |es|);
      && |Renamed(r, t.clubs)| == |t.clubs|
      && |t'.clubs| == |upserted| == |t.clubs| + |NewClubs(Renamed(r, t.clubs), t.nextClub, es, t'.leagues, |es|)|
      && (forall i :: 0 <= i < |upserted| ==> t'.clubs[i] == DetachOne(upserted[i], es, r.leagues, t'.leagues))
  {
    hide NewClubs, LeaguesUpserted, ClubsUpserted, DetachOne, Elected, CanonicalName;
    var es := Entries(r.leagues);
    ClubsUpsertedAt(Renamed(r, t.clubs), t.nextClub, es, Synced(r, t).leagues, |es|);
  }

  lemma {:induction false} OldRows(r: Roster, t: Tables, i: nat)
    requires i < |t.clubs|
    ensures i < |Synced(r, t).clubs| && Synced(r, t).clubs[i] == RowAfter(r, t, i)
  {
    hide Synced, Renamed, StampClub, DetachOne, NewClubs, ClubsUpserted;
    var es := Entries(r.leagues);
    SyncedClubs(r, t);
    ClubsUpsertedAt(Renamed(r, t.clubs), t.nextClub, es, Synced(r, t).leagues, |es|);
    assert es[..|es|] == es;
  }

  /** A row the sync inserted is an entry's, as the roster wants it. */
  lemma {:induction false} NewRows(r: Roster, t: Tables, i: nat) returns (m: nat)
    requires Loaded(r) && |t.clubs| <= i < |Synced(r, t).clubs|
    ensures m < |Entries(r.leagues)|
    ensures Synced(r, t).clubs[i] ==
      Stamp(ClubRow(t.nextClub + (i - |t.clubs|), "", None, None, None), Entries(r.leagues)[m], Synced(r, t).leagues)
  {
    hide Lower, Synced, Renamed, NewClubs, ClubsUpserted, Stamp, Loaded, DetachOne;
    var es := Entries(r.leagues);
    var leagues := Synced(r, t).leagues;
    RosterNamesDistinct(r);
    SyncedClubs(r, t);
    ClubsUpsertedAt(Renamed(r, t.clubs), t.nextClub, es, leagues, |es|);
    m := NewClubIs(Renamed(r, t.clubs), t.nextClub, es, leagues, |es|, i - |t.clubs|);
    var row := ClubRow(t.nextClub + (i - |t.clubs|), "", None, None, None);
    StampName(row, es[m], leagues);
    RosterRowStays(Stamp(row, es[m], leagues), es, m, r.leagues, leagues);
  }

  lemma {:induction false} RosterRowStays(row: ClubRow, es: seq<Entry>, m: nat, ls: seq<League>, leagues: seq<LeagueRow>)
    requires m < |es| && row.name == es[m].club.name
    ensures DetachOne(row, es, ls, leagues) == row
  {
    hide Lower, InRosterLeague;
    assert EntryIndex(es, Lower(row.name)) <= m;
  }

  /** Every roster club has a row. */
  lemma {:induction false} EntryHasRow(r: Roster, t: Tables, m: nat)
    requires Loaded(r) && m < |Entries(r.leagues)|
    ensures ClubIndex(Synced(r, t).clubs, Lower(Entries(r.leagues)[m].club.name)) < |Synced(r, t).clubs|
  {
    hide Lower, Synced, Renamed, NewClubs, ClubsUpserted, Stamp, Loaded, StampClub, DetachOne, ClubIndex;
    var es := Entries(r.leagues);
    var t' := Synced(r, t);
    var renamed := Renamed(r, t.clubs);
    var key := Lower(es[m].club.name);
    RosterNamesDistinct(r);
    SyncedClubs(r, t);
    var i := ClubIndex(renamed, key);
    if i < |renamed| {
      OldRows(r, t, i);
      StampIdempotent(renamed[i], es, r.leagues, t'.leagues);
    } else {
      var k := NewClubFor(renamed, t.nextClub, es, t'.leagues, |es|, m);
      var row := ClubRow(t.nextClub + k, "", None, None, None);
      i := |t.clubs| + k;
      ClubsUpsertedAt(renamed, t.nextClub, es, t'.leagues, |es|);
      StampName(row, es[m], t'.leagues);
      RosterRowStays(Stamp(row, es[m], t'.leagues), es, m, r.leagues, t'.leagues);
    }
    assert Lower(t'.clubs[i].name) == key;
  }

  lemma {:induction false} SyncSettles(r: Roster, t: Tables)
    requires Loaded(r)
    ensures Settled(r, Synced(r, t))
  {
    hide Lower, Elected, LeaguesUpserted, CanonicalName, Loaded, Synced, Departed, StampClub, StampLeague, ClubIndex;
    var es := Entries(r.leagues);
    var t' := Synced(r, t);
    RosterNamesDistinct(r);
    LeaguesSettle(r, t.leagues, t.nextLeague);
    SyncedLeagues(r, t);
    forall m | 0 <= m < |es| ensures ClubIndex(t'.clubs, Lower(es[m].club.name)) < |t'.clubs| {
      EntryHasRow(r, t, m);
    }
    forall i | 0 <= i < |t'.clubs|
      ensures StampClub(t'.clubs[i], es, t'.leagues) == t'.clubs[i] && !Departed(t'.clubs[i], es, r.leagues, t'.leagues)
    {
      if i < |t.clubs| {
        OldRows(r, t, i);
        StampIdempotent(Renamed(r, t.clubs)[i], es, r.leagues, t'.leagues);
      } else {
        var m := NewRows(r, t, i);
        NewRowSettled(ClubRow(t.nextClub + (i - |t.clubs|), "", None, None, None), es, m, r.leagues, t'.leagues);
      }
    }
  }

  lemma {:induction false} SyncedLeagues(r: Roster, t: Tables)
    ensures Synced(r, t).leagues == LeaguesUpserted(t.leagues, t.nextLeague, r.leagues, |r.leagues|)
  {
    hide LeaguesUpserted;
  }

  lemma {:induction false} NewRowSettled(row: ClubRow, es: seq<Entry>, m: nat, ls: seq<League>, leagues: seq<LeagueRow>)
    requires DistinctEntryNames(es) && m < |es|
    ensures
      var after := Stamp(row, es[m], leagues);
      StampClub(after, es, leagues) == after && !Departed(after, es, ls, leagues)
  {
    hide Lower, LeagueId;
    assert EntryIndex(es, Lower(es[m].club.name)) == m;
  }

  // ---------- the duplicates reported stay the same ----------

  /** A row whose name is a roster club's in another case is elected. */
  lemma {:induction false} CaseVariantElected(r: Roster, clubs: seq<ClubRow>, i: nat, e: Entry)
    requires Loaded(r) && UniqueClubNames(clubs) && i < |clubs| && e in Entries(r.leagues)
    requires Lower(clubs[i].name) == Lower(e.club.name) && clubs[i].name != e.club.name
    ensures Elected(r, clubs, i)
  {
    hide Lower, Lookup, Loaded;
    RosterRowResolves(r, clubs[i].name, e);
  }

  /** Row i is still misnamed after a sync exactly when it was and was not elected; its name is then as before. */
  lemma {:induction false} MisnamedAfter(r: Roster, t: Tables, i: nat)
    requires Loaded(r) && ValidTables(t) && i < |t.clubs|
    ensures
      var before, after := t.clubs[i], RowAfter(r, t, i);
      && (Misnamed(r, after) <==> Misnamed(r, before) && !Elected(r, t.clubs, i))
      && after.id == before.id
      && (Misnamed(r, after) ==> after.name == before.name)
  {
    hide Lower, Lookup, Loaded, Synced;
    var es := Entries(r.leagues);
    var leagues := Synced(r, t).leagues;
    var before, renamed := t.clubs[i], Renamed(r, t.clubs)[i];
    var m := EntryIndex(es, Lower(renamed.name));
    assert before in t.clubs && before.id in ClubIdSet(t.clubs);
    LookupFindsEntries(r, before.name);
    if Elected(r, t.clubs, i) {
      var e := Lookup(r, before.name).value;
      OwnNameResolves(r, e);
      assert renamed.name == e.club.name;
      var k :| 0 <= k < |es| && es[k] == e;
      RosterNamesDistinct(r);
      assert m == k;
    } else if m < |es| {
      if before.name != es[m].club.name {
        CaseVariantElected(r, t.clubs, i, es[m]);
      }
      OwnNameResolves(r, es[m]);
    }
  }

  lemma {:induction false} NewRowsNotMisnamed(r: Roster, t: Tables, i: nat)
    requires Loaded(r) && |t.clubs| <= i < |Synced(r, t).clubs|
    ensures !Misnamed(r, Synced(r, t).clubs[i])
  {
    hide Lower, Lookup, Loaded, Synced;
    var m := NewRows(r, t, i);
    OwnNameResolves(r, Entries(r.leagues)[m]);
  }

  lemma {:induction false} UnmergedKept(r: Roster, t: Tables, n: nat)
    requires Loaded(r) && ValidTables(t) && n <= |t.clubs| <= |Synced(r, t).clubs|
    ensures Unmerged(r, Synced(r, t).clubs, n) == Unmerged(r, t.clubs, n)
  {
    hide Lower, Lookup, Loaded, Synced, Elected, Misnamed, RowAfter, Settled, CanonicalName;
    if n > 0 {
      var i := n - 1;
      UnmergedKept(r, t, i);
      OldRows(r, t, i);
      MisnamedAfter(r, t, i);
      SyncSettles(r, t);
      SettledElectsNone(r, Synced(r, t), i);
      PlanStep(r, t.clubs, i);
      PlanStep(r, Synced(r, t).clubs, i);
    }
  }

  lemma {:induction false} UnmergedNoMore(r: Roster, t: Tables, n: nat)
    requires Loaded(r) && ValidTables(t) && |t.clubs| <= n <= |Synced(r, t).clubs|
    ensures Unmerged(r, Synced(r, t).clubs, n) == Unmerged(r, Synced(r, t).clubs, |t.clubs|)
  {
    hide Lower, Lookup, Loaded, Synced, Elected, Misnamed;
    if n > |t.clubs| {
      UnmergedNoMore(r, t, n - 1);
      NewRowsNotMisnamed(r, t, n - 1);
      PlanStep(r, Synced(r, t).clubs, n - 1);
    }
  }

  lemma {:induction false} NoRowLost(r: Roster, t: Tables)
    ensures |t.clubs| <= |Synced(r, t).clubs| && |t.leagues| <= |Synced(r, t).leagues|
    ensures forall i :: 0 <= i < |t.clubs| ==> Synced(r, t).clubs[i].id == t.clubs[i].id
  {
    hide Lower, Elected, NewClubs, NewLeagues, Departed, CanonicalName, StampLeague, LeagueId, EntryIndex;
  }

  /** One pass is enough: a second sync changes no row, renames and detaches nothing, and reports
      the same duplicates. */
  lemma {:induction false} SyncConverges(r: Roster, t: Tables)
    requires Loaded(r) && ValidTables(t)
    ensures
      var once := Synced(r, t);
      && Synced(r, once) == once
      && Report(r, once).renamed == []
      && Report(r, once).detached == 0
      && Report(r, once).unmerged == Report(r, t).unmerged
  {
    hide Lower, Lookup, Loaded, Synced, Elected, Misnamed, ValidTables;
    SyncSettles(r, t);
    SettledIsFixed(r, Synced(r, t));
    NoRowLost(r, t);
    UnmergedKept(r, t, |t.clubs|);
    UnmergedNoMore(r, t, |Synced(r, t).clubs|);
  }
}

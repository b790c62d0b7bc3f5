/** After a roster sync, league membership is what the roster says. */
module LeagueMembership {
  import opened Wrappers
  import opened Text
  import opened Roster
  import opened RosterLookup
  import opened ClubTables
  import opened RenamePlan
  import opened RosterStatements
  import opened RosterConvergence

  /** The row's league, as stored, is one the roster names. */
  ghost predicate StoredInRosterLeague(row: ClubRow, ls: seq<League>, leagues: seq<LeagueRow>) {
    row.leagueId.Some? && exists l, k ::
      0 <= l < |ls| && 0 <= k < |leagues| && Lower(leagues[k].name) == Lower(ls[l].name) && leagues[k].id == row.leagueId.value
  }

  lemma {:induction false} LeagueIdIs(leagues: seq<LeagueRow>, key: string, k: nat)
    requires UniqueLeagueNames(leagues) && k < |leagues| && Lower(leagues[k].name) == key
    ensures LeagueId(leagues, key) == Some(leagues[k].id)
  {
    hide Lower;
  }

  lemma {:induction false} StampLeagueKeepsKey(row: LeagueRow, ls: seq<League>)
    ensures StampLeague(row, ls).id == row.id && Lower(StampLeague(row, ls).name) == Lower(row.name)
  {
    hide Lower;
  }

  /** A league row keeps its id and, up to case, its name. */
  lemma {:induction false} LeagueRowKept(r: Roster, t: Tables, k: nat)
    requires k < |t.leagues|
    ensures k < |Synced(r, t).leagues|
    ensures Synced(r, t).leagues[k].id == t.leagues[k].id
    ensures Lower(Synced(r, t).leagues[k].name) == Lower(t.leagues[k].name)
  {
    hide Lower, NewLeagues, StampLeague;
    SyncedLeagues(r, t);
    assert r.leagues[..|r.leagues|] == r.leagues;
    StampLeagueKeepsKey(t.leagues[k], r.leagues);
  }

  /** Being in a roster league before the sync and being found so by the detach statement are the same. */
  lemma {:induction false} RosterLeagueSeen(r: Roster, t: Tables, i: nat, row: ClubRow)
    requires Loaded(r) && ValidTables(t) && i < |t.clubs| && row.leagueId == t.clubs[i].leagueId
    ensures StoredInRosterLeague(t.clubs[i], r.leagues, t.leagues) <==>
      InRosterLeague(row, r.leagues, Synced(r, t).leagues)
  {
    hide Lower, Loaded, Synced, LeagueId;
    var t' := Synced(r, t);
    SyncedValid(r, t);
    if StoredInRosterLeague(t.clubs[i], r.leagues, t.leagues) {
      var l, k :| 0 <= l < |r.leagues| && 0 <= k < |t.leagues| &&
        Lower(t.leagues[k].name) == Lower(r.leagues[l].name) && t.leagues[k].id == row.leagueId.value;
      LeagueRowKept(r, t, k);
      LeagueIdIs(t'.leagues, Lower(r.leagues[l].name), k);
    }
    if InRosterLeague(row, r.leagues, t'.leagues) {
      var l :| 0 <= l < |r.leagues| && LeagueId(t'.leagues, Lower(r.leagues[l].name)) == row.leagueId;
      var k :| 0 <= k < |t.leagues| && t.leagues[k].id == row.leagueId.value;
      LeagueRowKept(r, t, k);
      LeagueIdFound(t'.leagues, Lower(r.leagues[l].name), t'.nextLeague, k);
    }
  }

  lemma {:induction false} LeagueIdFound(leagues: seq<LeagueRow>, key: string, next: nat, k: nat)
    requires LeagueIds(leagues, next) && k < |leagues| && LeagueId(leagues, key) == Some(leagues[k].id)
    ensures Lower(leagues[k].name) == key
  {
    hide Lower;
    var i := LeagueIndex(leagues, key);
    assert leagues[i].id == leagues[k].id;
  }

  /** A roster club's row has exactly that club's league. */
  lemma {:induction false} RosterClubHasItsLeague(r: Roster, t: Tables, i: nat, e: Entry)
    requires Loaded(r) && ValidTables(t) && e in Entries(r.leagues)
    requires i < |Synced(r, t).clubs| && SameUpToCase(Synced(r, t).clubs[i].name, e.club.name)
    ensures Synced(r, t).clubs[i].name == e.club.name
    ensures Synced(r, t).clubs[i].shortName == Some(e.club.shortName)
    ensures Synced(r, t).clubs[i].leagueId == LeagueId(Synced(r, t).leagues, Lower(e.league))
    ensures Synced(r, t).clubs[i].leagueId.Some?
  {
    hide Lower, Loaded, Synced, LeagueId;
    var es := Entries(r.leagues);
    var t' := Synced(r, t);
    SyncSettles(r, t);
    RosterNamesDistinct(r);
    var m :| 0 <= m < |es| && es[m] == e;
    assert EntryIndex(es, Lower(t'.clubs[i].name)) == m;
    assert StampClub(t'.clubs[i], es, t'.leagues) == t'.clubs[i];
    var l := EntryLeague(r.leagues, m);
    LeaguesPresent(t.leagues, t.nextLeague, r.leagues, l);
    SyncedLeagues(r, t);
  }

  /** Every other row keeps everything but its league, and loses that exactly when it was a roster league. */
  lemma {:induction false} OtherRowsDetached(r: Roster, t: Tables, i: nat)
    requires Loaded(r) && ValidTables(t) && i < |t.clubs| <= |Synced(r, t).clubs|
    requires forall e :: e in Entries(r.leagues) ==> !SameUpToCase(Synced(r, t).clubs[i].name, e.club.name)
    ensures Synced(r, t).clubs[i] ==
      if StoredInRosterLeague(t.clubs[i], r.leagues, t.leagues) then t.clubs[i].(leagueId := None) else t.clubs[i]
  {
    hide Lower, Lookup, Loaded, Synced, InRosterLeague, LeagueId, Stamp;
    var es := Entries(r.leagues);
    var t' := Synced(r, t);
    OldRows(r, t, i);
    RosterNamesDistinct(r);
    var renamed := Renamed(r, t.clubs)[i];
    StampIdempotent(renamed, es, r.leagues, t'.leagues);
    assert EntryIndex(es, Lower(renamed.name)) == |es|;
    assert t.clubs[i] in t.clubs && t.clubs[i].id in ClubIdSet(t.clubs);
    LookupFindsEntries(r, t.clubs[i].name);
    RosterLeagueSeen(r, t, i, renamed);
  }

  /** A row the sync adds is a roster club's. */
  lemma {:induction false} AddedRowsAreRosterClubs(r: Roster, t: Tables, i: nat)
    requires Loaded(r) && |t.clubs| <= i < |Synced(r, t).clubs|
    ensures exists e :: e in Entries(r.leagues) && Synced(r, t).clubs[i].name == e.club.name
  {
    hide Lower, Loaded, Synced, LeagueId;
    var m := NewRows(r, t, i);
    assert Entries(r.leagues)[m] in Entries(r.leagues);
  }

  /** A roster club's row shows the roster's crest, or keeps its own if the roster has none. */
  lemma {:induction false} RosterClubHasItsCrest(r: Roster, t: Tables, i: nat, e: Entry)
    requires Loaded(r) && ValidTables(t) && e in Entries(r.leagues)
    requires i < |Synced(r, t).clubs| && SameUpToCase(Synced(r, t).clubs[i].name, e.club.name)
    ensures Synced(r, t).clubs[i].crestUrl ==
      if e.club.crestUrl != "" then Some(e.club.crestUrl) else if i < |t.clubs| then t.clubs[i].crestUrl else None
  {
    hide Lower, Loaded, Synced, LeagueId, CanonicalName, Elected;
    var es := Entries(r.leagues);
    RosterNamesDistinct(r);
    var m :| 0 <= m < |es| && es[m] == e;
    if i < |t.clubs| {
      OldRows(r, t, i);
      var renamed := Renamed(r, t.clubs)[i];
      StampIdempotent(renamed, es, r.leagues, Synced(r, t).leagues);
      assert EntryIndex(es, Lower(renamed.name)) == m;
    } else {
      var n := NewRows(r, t, i);
    }
  }

  /** A roster league's row has the roster's spelling and short name; other league rows are as before. */
  lemma {:induction false} RosterLeaguesNamed(r: Roster, t: Tables, k: nat)
    requires Loaded(r) && ValidTables(t) && k < |Synced(r, t).leagues|
    ensures
      var row := Synced(r, t).leagues[k];
      var l := RosterLeagueIndex(r.leagues, Lower(row.name));
      if l < |r.leagues| then row.name == r.leagues[l].name && row.shortName == Some(r.leagues[l].shortName)
      else k < |t.leagues| && row == t.leagues[k]
  {
    hide Lower, Loaded, Synced, LeagueIndex, LeaguesUpserted, NewLeagues, ValidTables;
    var ls, t' := r.leagues, Synced(r, t);
    SyncSettles(r, t);
    assert StampLeague(t'.leagues[k], ls) == t'.leagues[k];
    if k < |t.leagues| {
      OldLeagueRow(r, t, k);
    } else {
      NewLeagueRow(r, t, k);
    }
  }

  lemma {:induction false} OldLeagueRow(r: Roster, t: Tables, k: nat)
    requires k < |t.leagues|
    ensures k < |Synced(r, t).leagues| && Synced(r, t).leagues[k] == StampLeague(t.leagues[k], r.leagues)
  {
    hide Lower, Synced, StampLeague;
    SyncedLeagues(r, t);
    assert r.leagues[..|r.leagues|] == r.leagues;
  }

  lemma {:induction false} NewLeagueRow(r: Roster, t: Tables, k: nat)
    requires |t.leagues| <= k < |Synced(r, t).leagues|
    ensures RosterLeagueIndex(r.leagues, Lower(Synced(r, t).leagues[k].name)) < |r.leagues|
  {
    hide Lower, Synced, StampLeague;
    SyncedLeagues(r, t);
    var m := NewLeagueIs(t.leagues, t.nextLeague, r.leagues, |r.leagues|, k - |t.leagues|);
    assert Lower(Synced(r, t).leagues[k].name) == Lower(r.leagues[m].name);
  }
}

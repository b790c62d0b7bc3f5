/** Which club a spelling leads to never changes, over any run of GetOrCreateClub
    and SyncRoster calls with one roster. */
module ClubIdentity {
  import opened Wrappers
  import opened Text
  import opened Roster
  import opened RosterLookup
  import opened ClubTables
  import opened RosterStatements
  import opened RosterConvergence

  datatype Op = Get(spelling: string) | Sync

  ghost function Step(r: Roster, t: Tables, op: Op): Tables {
    match op
    case Get(spelling) => GetOrCreate(r, t, spelling).0
    case Sync => Synced(r, t)
  }

  ghost function Run(r: Roster, t: Tables, ops: seq<Op>): Tables {
    if ops == [] then t else Step(r, Run(r, t, ops[..|ops| - 1]), ops[|ops| - 1])
  }

  /** The spelling's row: the one stored under its canonical name, up to case. */
  ghost predicate LeadsTo(r: Roster, t: Tables, spelling: string, id: nat) {
    exists i :: 0 <= i < |t.clubs| && t.clubs[i].id == id && Lower(t.clubs[i].name) == Lower(CanonicalName(r, spelling))
  }

  lemma {:induction false} StepValid(r: Roster, t: Tables, op: Op)
    requires Loaded(r) && ValidTables(t)
    ensures ValidTables(Step(r, t, op))
  {
    hide ValidTables, Loaded, Synced, GetOrCreate;
    match op {
      case Get(spelling) => GetOrCreateValid(r, t, spelling);
      case Sync => SyncedValid(r, t);
    }
  }

  lemma {:induction false} RunValid(r: Roster, t: Tables, ops: seq<Op>)
    requires Loaded(r) && ValidTables(t)
    ensures ValidTables(Run(r, t, ops))
  {
    hide ValidTables, Loaded, Step;
    if ops != [] {
      RunValid(r, t, ops[..|ops| - 1]);
      StepValid(r, Run(r, t, ops[..|ops| - 1]), ops[|ops| - 1]);
    }
  }

  /** GetOrCreateClub returns the spelling's row, the one it already led to if any. */
  lemma {:induction false} GetReturnsLeader(r: Roster, t: Tables, spelling: string)
    requires ValidTables(t)
    ensures LeadsTo(r, GetOrCreate(r, t, spelling).0, spelling, GetOrCreate(r, t, spelling).1)
    ensures forall id :: LeadsTo(r, t, spelling, id) ==> GetOrCreate(r, t, spelling).1 == id
  {
    hide Lower, Lookup;
    var key := Lower(CanonicalName(r, spelling));
    var i := ClubIndex(t.clubs, key);
    var t' := GetOrCreate(r, t, spelling).0;
    assert t'.clubs[i].id == GetOrCreate(r, t, spelling).1 && Lower(t'.clubs[i].name) == key;
  }

  /** A row some spelling leads to keeps its name up to case. */
  lemma {:induction false} SyncKeepsLeader(r: Roster, t: Tables, spelling: string, i: nat)
    requires Loaded(r) && ValidTables(t) && i < |t.clubs| <= |Synced(r, t).clubs|
    requires Lower(t.clubs[i].name) == Lower(CanonicalName(r, spelling))
    ensures Lower(Synced(r, t).clubs[i].name) == Lower(CanonicalName(r, spelling))
    ensures Synced(r, t).clubs[i].id == t.clubs[i].id
  {
    hide Lower, Lookup, Loaded, Synced, InRosterLeague, LeagueId, Stamp, StampClub;
    OldRows(r, t, i);
    RosterNamesDistinct(r);
    StampIdempotent(Renamed(r, t.clubs)[i], Entries(r.leagues), r.leagues, Synced(r, t).leagues);
    CanonicalRowResolves(r, spelling, t.clubs[i].name);
  }

  lemma {:induction false} GetKeepsLeader(r: Roster, t: Tables, other: string, spelling: string, id: nat)
    requires LeadsTo(r, t, spelling, id)
    ensures LeadsTo(r, GetOrCreate(r, t, other).0, spelling, id)
  {
    hide Lower, Lookup, CanonicalName;
    var t' := GetOrCreate(r, t, other).0;
    var key := Lower(CanonicalName(r, spelling));
    var i :| 0 <= i < |t.clubs| && t.clubs[i].id == id && Lower(t.clubs[i].name) == key;
    assert t'.clubs[i].id == id && Lower(t'.clubs[i].name) == key;
  }

  lemma {:induction false} StepKeepsLeader(r: Roster, t: Tables, op: Op, spelling: string, id: nat)
    requires Loaded(r) && ValidTables(t) && LeadsTo(r, t, spelling, id)
    ensures LeadsTo(r, Step(r, t, op), spelling, id)
  {
    hide Lower, Lookup, Loaded, Synced, GetOrCreate, CanonicalName;
    match op {
      case Get(other) =>
        GetKeepsLeader(r, t, other, spelling, id);
      case Sync =>
        NoRowLost(r, t);
        var i :| 0 <= i < |t.clubs| && t.clubs[i].id == id && Lower(t.clubs[i].name) == Lower(CanonicalName(r, spelling));
        SyncKeepsLeader(r, t, spelling, i);
    }
  }

  lemma {:induction false} RunKeepsLeader(r: Roster, t: Tables, ops: seq<Op>, spelling: string, id: nat)
    requires Loaded(r) && ValidTables(t) && LeadsTo(r, t, spelling, id)
    ensures LeadsTo(r, Run(r, t, ops), spelling, id)
  {
    hide ValidTables, Loaded, Step, LeadsTo;
    if ops != [] {
      var before := Run(r, t, ops[..|ops| - 1]);
      RunValid(r, t, ops[..|ops| - 1]);
      RunKeepsLeader(r, t, ops[..|ops| - 1], spelling, id);
      StepKeepsLeader(r, before, ops[|ops| - 1], spelling, id);
    }
  }

  /** Once a spelling has returned an id it always returns that id, and another spelling returns
      the same id exactly when the canonical names agree up to case. */
  lemma {:induction false} IdentityIsStable(r: Roster, t: Tables, first: string, ops: seq<Op>, later: string)
    requires Loaded(r) && ValidTables(t)
    ensures
      var (t1, id) := GetOrCreate(r, t, first);
      var (_, id') := GetOrCreate(r, Run(r, t1, ops), later);
      id' == id <==> SameUpToCase(CanonicalName(r, first), CanonicalName(r, later))
  {
    hide Lower, Loaded, GetOrCreate, CanonicalName, Run;
    var (t1, id) := GetOrCreate(r, t, first);
    var t2 := Run(r, t1, ops);
    var (t3, id') := GetOrCreate(r, t2, later);
    GetReturnsLeader(r, t, first);
    StepValid(r, t, Get(first));
    RunKeepsLeader(r, t1, ops, first, id);
    RunValid(r, t1, ops);
    GetReturnsLeader(r, t2, later);
    GetKeepsLeader(r, t2, later, first, id);
    GetOrCreateValid(r, t2, later);
    if SameUpToCase(CanonicalName(r, first), CanonicalName(r, later)) {
      assert LeadsTo(r, t2, later, id);
    }
  }

  /** A spelling outside the roster never lands on a row that is, or would be taken for, a roster club's. */
  lemma {:induction false} UnknownSpellingsKeepOff(r: Roster, t: Tables, spelling: string, i: nat)
    requires Loaded(r) && ValidTables(t) && Lookup(r, spelling).None?
    requires
      var (t', id) := GetOrCreate(r, t, spelling);
      i < |t'.clubs| && t'.clubs[i].id == id
    ensures
      var row := GetOrCreate(r, t, spelling).0.clubs[i];
      && Lookup(r, row.name).None?
      && (forall e :: e in Entries(r.leagues) ==> !SameUpToCase(row.name, e.club.name))
      && row.leagueId == (if i < |t.clubs| then t.clubs[i].leagueId else None)
  {
    hide Lower, Lookup, Loaded;
    var (t', id) := GetOrCreate(r, t, spelling);
    GetReturnsLeader(r, t, spelling);
    GetOrCreateValid(r, t, spelling);
    var k :| 0 <= k < |t'.clubs| && t'.clubs[k].id == id && Lower(t'.clubs[k].name) == Lower(CanonicalName(r, spelling));
    assert k == i;
    CanonicalRowResolves(r, spelling, t'.clubs[i].name);
    forall e | e in Entries(r.leagues) ensures !SameUpToCase(t'.clubs[i].name, e.club.name) {
      if SameUpToCase(t'.clubs[i].name, e.club.name) {
        RosterRowResolves(r, t'.clubs[i].name, e);
      }
    }
  }

  /** Getting a club touches no other row, renames nothing and blanks no column. */
  lemma {:induction false} GetKeepsRows(r: Roster, t: Tables, spelling: string, i: nat)
    requires ValidTables(t) && i < |t.clubs|
    ensures
      var (t', id) := GetOrCreate(r, t, spelling);
      && t'.leagues == t.leagues
      && |t.clubs| <= |t'.clubs| <= |t.clubs| + 1
      && t'.clubs[i].id == t.clubs[i].id && t'.clubs[i].name == t.clubs[i].name
      && (t.clubs[i].id != id ==> t'.clubs[i] == t.clubs[i])
      && (t.clubs[i].shortName.Some? ==> t'.clubs[i].shortName.Some?)
      && (t.clubs[i].crestUrl.Some? ==> t'.clubs[i].crestUrl.Some?)
      && (t.clubs[i].leagueId.Some? ==> t'.clubs[i].leagueId.Some?)
  {
    hide Lower, Lookup, LeagueId;
  }

  /** A spelling of a roster club leaves its row with the roster's short name, crest and league, as far
      as the roster has a crest and the league is stored. */
  lemma {:induction false} KnownSpellingsFillTheRow(r: Roster, t: Tables, spelling: string, i: nat)
    requires ValidTables(t) && Lookup(r, spelling).Some?
    requires
      var (t', id) := GetOrCreate(r, t, spelling);
      i < |t'.clubs| && t'.clubs[i].id == id
    ensures
      var row, e := GetOrCreate(r, t, spelling).0.clubs[i], Lookup(r, spelling).value;
      && SameUpToCase(row.name, e.club.name)
      && row.shortName == Some(e.club.shortName)
      && (e.club.crestUrl != "" ==> row.crestUrl == Some(e.club.crestUrl))
      && (LeagueId(t.leagues, Lower(e.league)).Some? ==> row.leagueId == LeagueId(t.leagues, Lower(e.league)))
  {
    hide Lower, Lookup, LeagueId;
    GetOrCreateValid(r, t, spelling);
    var k := ClubIndex(t.clubs, Lower(CanonicalName(r, spelling)));
    var t' := GetOrCreate(r, t, spelling).0;
    assert t'.clubs[k].id == t'.clubs[i].id && k == i;
  }

  // ---------- the row a spelling gets, column by column ----------

  /** o is the id of the stored league of this name, none if there is none. */
  ghost predicate LeagueNamed(leagues: seq<LeagueRow>, name: string, o: Option<nat>) {
    match o
    case None => forall k :: 0 <= k < |leagues| ==> !SameUpToCase(leagues[k].name, name)
    case Some(id) => exists k :: 0 <= k < |leagues| && leagues[k].id == id && SameUpToCase(leagues[k].name, name)
  }

  lemma {:induction false} LeagueIdNames(leagues: seq<LeagueRow>, name: string)
    ensures LeagueNamed(leagues, name, LeagueId(leagues, Lower(name)))
  {
    hide Lower;
  }

  /** A row is stored under the spelling's canonical name, up to case. */
  ghost predicate ClubStored(r: Roster, t: Tables, spelling: string, i: nat) {
    i < |t.clubs| && SameUpToCase(t.clubs[i].name, CanonicalName(r, spelling))
  }

  /** The row added for a spelling bears exactly its canonical name, with the roster's columns for a
      roster club and empty ones otherwise. */
  ghost predicate AddedFor(r: Roster, t: Tables, spelling: string, row: ClubRow) {
    && row.id == t.nextClub && row.name == CanonicalName(r, spelling)
    && match Lookup(r, spelling)
       case None => row.shortName == None && row.crestUrl == None && row.leagueId == None
       case Some(e) =>
         && row.shortName == Some(e.club.shortName)
         && row.crestUrl == (if e.club.crestUrl == "" then None else Some(e.club.crestUrl))
         && LeagueNamed(t.leagues, e.league, row.leagueId)
  }

  /** The row found for a spelling of a roster club takes the roster's short name, and its crest and
      league where there is one to take; any other row found stays as it is. */
  ghost predicate FilledFor(r: Roster, t: Tables, spelling: string, before: ClubRow, after: ClubRow) {
    match Lookup(r, spelling)
    case None => after == before
    case Some(e) =>
      && after.id == before.id && after.name == before.name
      && after.shortName == Some(e.club.shortName)
      && after.crestUrl == (if e.club.crestUrl == "" then before.crestUrl else Some(e.club.crestUrl))
      && (LeagueNamed(t.leagues, e.league, None) ==> after.leagueId == before.leagueId)
      && (!LeagueNamed(t.leagues, e.league, None) ==> after.leagueId.Some? && LeagueNamed(t.leagues, e.league, after.leagueId))
  }

  /** Getting a club whose canonical name is not stored adds one row for it and changes no other. */
  lemma {:induction false} GetAddsRow(r: Roster, t: Tables, spelling: string)
    requires forall i: nat :: !ClubStored(r, t, spelling, i)
    ensures
      var (t', id) := GetOrCreate(r, t, spelling);
      && t'.leagues == t.leagues && t'.nextLeague == t.nextLeague && t'.nextClub == t.nextClub + 1
      && |t'.clubs| == |t.clubs| + 1 && t'.clubs[..|t.clubs|] == t.clubs
      && AddedFor(r, t, spelling, t'.clubs[|t.clubs|]) && id == t.nextClub
  {
    hide Lower, Lookup, LeagueId;
    var i := ClubIndex(t.clubs, Lower(CanonicalName(r, spelling)));
    assert !ClubStored(r, t, spelling, i);
    if Lookup(r, spelling).Some? {
      LeagueIdNames(t.leagues, Lookup(r, spelling).value.league);
    }
  }

  /** Getting a club whose canonical name is stored returns that row, filled in, and changes no other. */
  lemma {:induction false} GetFillsRow(r: Roster, t: Tables, spelling: string, i: nat)
    requires ValidTables(t) && ClubStored(r, t, spelling, i)
    ensures
      var (t', id) := GetOrCreate(r, t, spelling);
      && t' == t.(clubs := t'.clubs) && |t'.clubs| == |t.clubs| && id == t.clubs[i].id
      && (forall j :: 0 <= j < |t.clubs| && j != i ==> t'.clubs[j] == t.clubs[j])
      && FilledFor(r, t, spelling, t.clubs[i], t'.clubs[i])
  {
    hide Lower, Lookup, LeagueId;
    var k := ClubIndex(t.clubs, Lower(CanonicalName(r, spelling)));
    assert k == i;
    if Lookup(r, spelling).Some? {
      LeagueIdNames(t.leagues, Lookup(r, spelling).value.league);
    }
  }
}

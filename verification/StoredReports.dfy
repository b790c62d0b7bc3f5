/** What the store holds of a report once it went in, column by column, and what a whole history of
    reports adds up to (internal/cluster/cluster.go, internal/store/rumours.go). */
module StoredReports {
  import opened Wrappers
  import opened Roster
  import opened RosterLookup
  import opened ClubTables
  import opened RosterStatements
  import opened Rumours
  import opened Clustering
  import opened RumourHistory
  import ClubIdentity

  /** The key is the report's: its player, its destination club and its window. */
  ghost predicate KeyOf(r: Roster, players: PlayerTable, t: Tables, rep: Report, key: Key) {
    && PlayerLeadsTo(players, rep.player, key.player)
    && ClubIdentity.LeadsTo(r, t, rep.toClub, key.toClub)
    && rep.window == key.window
  }

  /** The report names a selling club. */
  predicate Sells(rep: Report) {
    rep.fromClub.Some? && rep.fromClub.value != ""
  }

  /** The club is the one the report names as selling; before stands if it names none. */
  ghost predicate SoldBy(r: Roster, t: Tables, rep: Report, before: Option<nat>, club: Option<nat>) {
    if Sells(rep) then club.Some? && ClubIdentity.LeadsTo(r, t, rep.fromClub.value, club.value) else club == before
  }

  function SummaryOf(rep: Report): Option<string> {
    if rep.summary == "" then None else Some(rep.summary)
  }

  // ---------- one report ----------

  /** The row of a rumour's first report: the report's columns as they are. */
  ghost predicate FirstRow(r: Roster, t: Tables, row: Rumour, rep: Report) {
    && row.status == rep.status && row.feeMin == rep.feeMin && row.feeMax == rep.feeMax
    && row.summary == SummaryOf(rep) && row.confidence == rep.confidence
    && SoldBy(r, t, rep, None, row.fromClub)
  }

  /** What a later report makes of the row: the status moves forward only, the fee range grows to the
      report's, and the latest report's other columns are taken. */
  ghost predicate NextRow(r: Roster, t: Tables, before: Rumour, row: Rumour, rep: Report) {
    && row.id == before.id && row.key == before.key
    && (before.status.IsTerminal() ==> row.status == before.status)
    && (!before.status.IsTerminal() ==>
          row.status == if Rank(rep.status) >= Rank(before.status) then rep.status else before.status)
    && (rep.feeMin.None? ==> row.feeMin == before.feeMin)
    && (rep.feeMin.Some? ==>
          row.feeMin ==
            (if before.feeMin.Some? && before.feeMin.value < rep.feeMin.value then before.feeMin else rep.feeMin))
    && (rep.feeMax.None? ==> row.feeMax == before.feeMax)
    && (rep.feeMax.Some? ==>
          row.feeMax ==
            (if before.feeMax.Some? && before.feeMax.value > rep.feeMax.value then before.feeMax else rep.feeMax))
    && row.summary == SummaryOf(rep) && row.confidence == rep.confidence
    && SoldBy(r, t, rep, before.fromClub, row.fromClub)
  }

  /** Of the rumours, row i alone is new or changed, and holds the report. */
  ghost predicate RowStored(r: Roster, t: Tables, before: seq<Rumour>, after: seq<Rumour>, rep: Report, i: nat) {
    && i <= |before| && i < |after| == (if i < |before| then |before| else |before| + 1)
    && (forall j :: 0 <= j < |before| && j != i ==> after[j] == before[j])
    && (if i < |before| then NextRow(r, t, before[i], after[i], rep) else FirstRow(r, t, after[i], rep))
  }

  lemma {:induction false} UpsertStores(r: Roster, players: PlayerTable, t: Tables, rumours: RumourTable, rep: Report, p: Params)
    requires NamesLead(r, players, t, rep, p)
    ensures
      var i := RumourIndex(rumours.rows, p.key);
      && RowStored(r, t, rumours.rows, UpsertRow(rumours, p).rows, rep, i)
      && UpsertRow(rumours, p).rows[i] == RowOf(rumours, p) && RowOf(rumours, p).key == p.key
      && KeyOf(r, players, t, rep, p.key)
  {
    hide PlayerLeadsTo, ClubIdentity.LeadsTo;
    var i := RumourIndex(rumours.rows, p.key);
    if i < |rumours.rows| {
      ForwardIs(rumours.rows[i].status, p.status);
    }
  }

  /** A report that was stored is in the row of its rumour, which is the returned one's. */
  lemma {:induction false} StoredRow(r: Roster, db: Db, rep: Report, f: Faults) returns (i: nat)
    requires Loaded(r) && ValidDb(db) && Upsert(r, db, rep, f).result.Stored?
    ensures
      var step := Upsert(r, db, rep, f);
      var rows := step.db.rumours.rows;
      && RowStored(r, step.db.tables, db.rumours.rows, rows, rep, i)
      && rows[i].id == step.result.id
      && KeyOf(r, step.db.players, step.db.tables, rep, rows[i].key)
  {
    hide ValidDb, Loaded, Resolve, NamesLead, NamesStored, KeyOf, RowStored, UpsertRow, RowOf, JustResolved, SourcesOn;
    hide ScoresNudged, EventInserted;
    var (db', p) := Resolve(r, db, rep, f);
    ResolveValid(r, db, rep, f);
    ResolvedNames(r, db, rep, f);
    i := RumourIndex(db.rumours.rows, p.value.key);
    UpsertStores(r, db'.players, db'.tables, db.rumours, rep, p.value);
    assert RowStored(r, db'.tables, db.rumours.rows, UpsertRow(db.rumours, p.value).rows, rep, i);
    StoredIndex(r, db'.tables, db.rumours.rows, UpsertRow(db.rumours, p.value).rows, rep, i);
  }

  lemma {:induction false} StoredIndex(r: Roster, t: Tables, before: seq<Rumour>, after: seq<Rumour>, rep: Report, i: nat)
    requires RowStored(r, t, before, after, rep, i)
    ensures i < |after|
  {
  }

  /** A stored report's event is added with the report's values, unless its article already has an event
      on the rumour. */
  lemma {:induction false} StoredEvent(r: Roster, db: Db, rep: Report, f: Faults)
    requires ValidDb(db) && Upsert(r, db, rep, f).result.Stored?
    ensures
      var step := Upsert(r, db, rep, f);
      var id := step.result.id;
      if exists i :: 0 <= i < |db.events| && db.events[i].rumourId == id && db.events[i].articleId == rep.articleId
      then step.db.events == db.events
      else
        && |step.db.events| == |db.events| + 1 && step.db.events[..|db.events|] == db.events
        && var e := step.db.events[|db.events|];
        && e.rumourId == id && e.articleId == rep.articleId && e.sourceId == rep.sourceId
        && e.status == rep.status && e.feeMin == rep.feeMin && e.feeMax == rep.feeMax
        && e.summary == SummaryOf(rep) && e.confidence == rep.confidence
  {
    hide ValidDb, NamesStored, UpsertRow, RowOf, JustResolved, SourcesOn, ScoresNudged, GetOrCreate, GetOrCreatePlayer;
    ResolveValid(r, db, rep, f);
  }

  /** The report names a player and a destination. */
  predicate Complete(rep: Report) {
    rep.player != "" && rep.toClub != ""
  }

  /** The calls that resolve the report's names all work. */
  predicate NamesWork(rep: Report, f: Faults) {
    f.player == Works && f.toClub == Works && (Sells(rep) ==> f.fromClub == Works)
  }

  /** An incomplete report changes nothing and is reported as such; a complete one is stored if every call
      made works and its source is known. */
  lemma {:induction false} UpsertResultIs(r: Roster, db: Db, rep: Report, f: Faults)
    ensures Upsert(r, db, rep, f).result == ErrIncomplete <==> !Complete(rep)
    ensures !Complete(rep) ==> Upsert(r, db, rep, f).db == db
    ensures Complete(rep) && NamesWork(rep, f) && f.upsert == f.event == f.nudge == Works && rep.sourceId in db.scores ==>
      Upsert(r, db, rep, f).result.Stored?
    ensures Upsert(r, db, rep, f).result.Stored? ==>
      Complete(rep) && NamesWork(rep, f) && f.upsert == f.event == Works && rep.sourceId in db.scores
  {
    hide GetOrCreate, GetOrCreatePlayer, UpsertRow, RowOf, JustResolved, SourcesOn, ScoresNudged, EventInserted;
  }

  // ---------- a history of reports ----------

  /** The report went into the rumours table: it is complete, its names resolved, and the rumour's upsert
      took effect. */
  predicate WentIn(rep: Report, f: Faults) {
    Complete(rep) && NamesWork(rep, f) && f.upsert != FailsBefore
  }

  /** The reports of a history that went in and are for this key, in order. */
  ghost function ReportsFor(r: Roster, db: Db, ops: seq<Op>, key: Key): seq<Report> {
    if ops == [] then []
    else
      var after := Run(r, db, ops);
      ReportsFor(r, db, ops[..|ops| - 1], key) +
        match ops[|ops| - 1]
        case SyncRoster => []
        case Deliver(rep, f) => if WentIn(rep, f) && KeyOf(r, after.players, after.tables, rep, key) then [rep] else []
  }

  /** p asks for what the report says, with a row for the club it names as selling. */
  ghost predicate Carries(r: Roster, t: Tables, p: Params, rep: Report) {
    && p.status == rep.status && p.feeMin == rep.feeMin && p.feeMax == rep.feeMax
    && p.summary == SummaryOf(rep) && p.confidence == rep.confidence
    && SoldBy(r, t, rep, None, p.fromClub)
  }

  ghost predicate AllCarry(r: Roster, t: Tables, ps: seq<Params>, reps: seq<Report>) {
    |ps| == |reps| && forall i :: 0 <= i < |ps| ==> Carries(r, t, ps[i], reps[i])
  }

  /** Whatever happens next, a club a spelling leads to stays. */
  lemma {:induction false} LeaderStays(r: Roster, db: Db, op: Op, spelling: string, id: nat)
    requires Loaded(r) && ValidDb(db) && ClubIdentity.LeadsTo(r, db.tables, spelling, id)
    ensures ClubIdentity.LeadsTo(r, After(r, db, op).tables, spelling, id)
  {
    hide Loaded, ValidTables, ValidPlayers, ValidRumours, ValidEvents, References, GetOrCreate, GetOrCreatePlayer;
    hide ClubIdentity.LeadsTo, Synced, UpsertRow, RowOf, JustResolved, SourcesOn, ScoresNudged, EventInserted;
    match op {
      case SyncRoster =>
        ClubIdentity.StepKeepsLeader(r, db.tables, ClubIdentity.Sync, spelling, id);
      case Deliver(rep, f) =>
        ClubIdentity.GetKeepsLeader(r, db.tables, rep.toClub, spelling, id);
        if NamesFromClub(rep) {
          ClubIdentity.GetKeepsLeader(
            r, GetOrCreate(r, db.tables, rep.toClub).0, rep.fromClub.value, spelling, id);
        }
    }
  }

  lemma {:induction false} CarriedStill(r: Roster, db: Db, op: Op, ps: seq<Params>, reps: seq<Report>)
    requires Loaded(r) && ValidDb(db) && AllCarry(r, db.tables, ps, reps)
    ensures AllCarry(r, After(r, db, op).tables, ps, reps)
  {
    hide Loaded, ValidDb, After, ClubIdentity.LeadsTo;
    forall i | 0 <= i < |ps| ensures Carries(r, After(r, db, op).tables, ps[i], reps[i]) {
      if Sells(reps[i]) {
        LeaderStays(r, db, op, reps[i].fromClub.value, ps[i].fromClub.value);
      }
    }
  }

  lemma {:induction false} NamesCarry(r: Roster, players: PlayerTable, t: Tables, rep: Report, p: Params, key: Key)
    requires ValidPlayers(players) && ValidTables(t) && NamesLead(r, players, t, rep, p)
    ensures Carries(r, t, p, rep) && (p.key == key <==> KeyOf(r, players, t, rep, key))
  {
    hide ValidPlayers, ValidTables, PlayerLeadsTo, ClubIdentity.LeadsTo;
    if KeyOf(r, players, t, rep, key) {
      SamePlayer(players, rep.player, rep.player, p.key.player, key.player);
      SameClub(r, t, rep.toClub, rep.toClub, p.key.toClub, key.toClub);
    }
  }

  /** The parameters of a report that went in are stored, and its names' tables are those it resolved in. */
  lemma {:induction false} WentInIs(r: Roster, db: Db, rep: Report, f: Faults)
    ensures
      var (db', p) := Resolve(r, db, rep, f);
      var after := After(r, db, Deliver(rep, f));
      if WentIn(rep, f)
      then p.Some? && Effect(r, db, Deliver(rep, f)) == [p.value]
        && after.players == db'.players && after.tables == db'.tables
      else Effect(r, db, Deliver(rep, f)) == []
  {
    hide GetOrCreate, GetOrCreatePlayer, UpsertRow, RowOf, JustResolved, SourcesOn, ScoresNudged, EventInserted;
  }

  lemma {:induction false} ValidNames(db: Db)
    requires ValidDb(db)
    ensures ValidPlayers(db.players) && ValidTables(db.tables)
  {
  }

  /** What an operation puts into the rumours table is its report, for the report's key. */
  lemma {:induction false} EffectCarries(r: Roster, db: Db, rep: Report, f: Faults, key: Key)
    requires Loaded(r) && ValidDb(db)
    ensures
      var effect := Effect(r, db, Deliver(rep, f));
      var after := After(r, db, Deliver(rep, f));
      && (effect != [] <==> WentIn(rep, f))
      && |effect| <= 1
      && (effect != [] ==>
            Carries(r, after.tables, effect[0], rep)
            && (effect[0].key == key <==> KeyOf(r, after.players, after.tables, rep, key)))
  {
    hide Loaded, ValidDb, Resolve, After, Effect, WentIn, NamesLead, NamesStored, KeyOf, Carries;
    WentInIs(r, db, rep, f);
    if WentIn(rep, f) {
      var (db', p) := Resolve(r, db, rep, f);
      ResolvedNames(r, db, rep, f);
      ResolveValid(r, db, rep, f);
      ValidNames(db');
      NamesCarry(r, db'.players, db'.tables, rep, p.value, key);
    }
  }

  lemma {:induction false} EffectsCarry(r: Roster, db: Db, ops: seq<Op>, key: Key)
    requires Loaded(r) && ValidDb(db)
    ensures AllCarry(r, Run(r, db, ops).tables, ForKey(Effects(r, db, ops), key), ReportsFor(r, db, ops, key))
  {
    hide Loaded, ValidDb, After, Effect, KeyOf, Carries, WentIn, AllCarry, ForKey;
    if ops == [] {
      NothingCarried(r, db.tables, key);
    } else {
      var before, op := ops[..|ops| - 1], ops[|ops| - 1];
      var mid := Run(r, db, before);
      RunValid(r, db, before);
      EffectsCarry(r, db, before, key);
      var ps := ForKey(Effects(r, db, before), key);
      CarriedStill(r, mid, op, ps, ReportsFor(r, db, before, key));
      if op.Deliver? {
        EffectCarries(r, mid, op.rep, op.faults, key);
      } else {
        NoEffect(r, mid);
      }
      var effect := Effect(r, mid, op);
      ForKeyStep(Effects(r, db, before), effect, key);
      if effect != [] && effect[0].key == key {
        CarriedToo(r, After(r, mid, op).tables, ps, ReportsFor(r, db, before, key), effect, op.rep);
      } else {
        assert ps + [] == ps && ReportsFor(r, db, before, key) + [] == ReportsFor(r, db, before, key);
      }
    }
  }

  lemma {:induction false} NothingCarried(r: Roster, t: Tables, key: Key)
    ensures ForKey([], key) == [] && AllCarry(r, t, [], [])
  {
  }

  lemma {:induction false} CarriedToo(r: Roster, t: Tables, ps: seq<Params>, reps: seq<Report>, more: seq<Params>, rep: Report)
    requires AllCarry(r, t, ps, reps) && |more| == 1 && Carries(r, t, more[0], rep)
    ensures AllCarry(r, t, ps + more, reps + [rep])
  {
    hide Carries;
  }

  lemma {:induction false} NoEffect(r: Roster, db: Db)
    ensures Effect(r, db, SyncRoster) == []
  {
  }

  lemma {:induction false} ForKeyStep(ps: seq<Params>, more: seq<Params>, key: Key)
    requires |more| <= 1
    ensures ForKey(ps + more, key) == ForKey(ps, key) + (if more != [] && more[0].key == key then more else [])
  {
    if more == [] {
      assert ps + more == ps;
    } else {
      assert (ps + more)[..|ps|] == ps;
    }
  }

  /** From an empty rumours table, whatever fails on the way, a key has a rumour exactly when a report for
      it went in, and the rumour's row is the closed form of those reports, in order. */
  lemma {:induction false} HistoryOfReports(r: Roster, db: Db, ops: seq<Op>, key: Key) returns (ps: seq<Params>)
    requires Loaded(r) && ValidDb(db) && db.rumours == RumourTable([], 0)
    ensures
      var after := Run(r, db, ops);
      var reports := ReportsFor(r, db, ops, key);
      var i := RumourIndex(after.rumours.rows, key);
      && AllCarry(r, after.tables, ps, reports)
      && (i < |after.rumours.rows| <==> reports != [])
      && (i < |after.rumours.rows| ==> Summarises(after.rumours.rows[i], ps))
  {
    hide Loaded, ValidDb, Run, Effects, ReportsFor, Summarises, Carries;
    ps := ForKey(Effects(r, db, ops), key);
    EffectsCarry(r, db, ops, key);
    HistoryIsClosedForm(r, db, ops, key);
  }
}

/** Whole histories of reports, failed ones included, with roster syncs in between. */
module RumourHistory {
  import opened Wrappers
  import opened Text
  import opened Roster
  import opened RosterLookup
  import opened ClubTables
  import opened RosterStatements
  import opened Rumours
  import opened Clustering
  import ClubIdentity
  import RosterConvergence

  datatype Op = Deliver(rep: Report, faults: Faults) | SyncRoster

  ghost function After(r: Roster, db: Db, op: Op): Db {
    match op
    case Deliver(rep, faults) => Upsert(r, db, rep, faults).db
    case SyncRoster => db.(tables := Synced(r, db.tables))
  }

  ghost function Run(r: Roster, db: Db, ops: seq<Op>): Db {
    if ops == [] then db else After(r, Run(r, db, ops[..|ops| - 1]), ops[|ops| - 1])
  }

  lemma {:induction false} AfterValid(r: Roster, db: Db, op: Op)
    requires Loaded(r) && ValidDb(db)
    ensures ValidDb(After(r, db, op)) && After(r, db, op).scores.Keys == db.scores.Keys
  {
    hide ValidTables, ValidPlayers, ValidRumours, ValidEvents, RumourReferences, EventReferences, Upsert, Synced, Loaded;
    match op {
      case Deliver(rep, faults) =>
        UpsertValid(r, db, rep, faults);
      case SyncRoster =>
        SyncedValid(r, db.tables);
        SyncKeepsClubs(r, db.tables);
        MoreNames(db.rumours.rows, db.players, db.tables, db.players, Synced(r, db.tables));
    }
  }

  lemma {:induction false} SyncKeepsClubs(r: Roster, t: Tables)
    ensures forall id: nat :: HasClub(t, id) ==> HasClub(Synced(r, t), id)
  {
    hide Synced;
    RosterConvergence.NoRowLost(r, t);
    forall id: nat | HasClub(t, id) ensures HasClub(Synced(r, t), id) {
      var i :| 0 <= i < |t.clubs| && t.clubs[i].id == id;
      assert Synced(r, t).clubs[i].id == id;
    }
  }

  lemma {:induction false} RunValid(r: Roster, db: Db, ops: seq<Op>)
    requires Loaded(r) && ValidDb(db)
    ensures ValidDb(Run(r, db, ops)) && Run(r, db, ops).scores.Keys == db.scores.Keys
  {
    hide ValidDb, After, Loaded;
    if ops != [] {
      RunValid(r, db, ops[..|ops| - 1]);
      AfterValid(r, Run(r, db, ops[..|ops| - 1]), ops[|ops| - 1]);
    }
  }

  // ---------- the rumours table is the history's closed form ----------

  /** What the operation stored in the rumours table, if its upsert went through. */
  ghost function Effect(r: Roster, db: Db, op: Op): seq<Params> {
    match op
    case SyncRoster => []
    case Deliver(rep, faults) =>
      if rep.player == "" || rep.toClub == "" || faults.upsert == FailsBefore then []
      else
        match Resolve(r, db, rep, faults).1
        case None => []
        case Some(p) => [p]
  }

  ghost function Effects(r: Roster, db: Db, ops: seq<Op>): seq<Params> {
    if ops == [] then []
    else Effects(r, db, ops[..|ops| - 1]) + Effect(r, Run(r, db, ops[..|ops| - 1]), ops[|ops| - 1])
  }

  lemma {:induction false} EffectIs(r: Roster, db: Db, op: Op)
    requires ValidDb(db)
    ensures After(r, db, op).rumours ==
      (if Effect(r, db, op) == [] then db.rumours else UpsertRow(db.rumours, Effect(r, db, op)[0]))
    ensures |Effect(r, db, op)| <= 1
  {
    hide ValidDb, Resolve, UpsertRow, Synced, ScoresNudged, EventInserted, JustResolved, RowOf;
    if op.Deliver? {
      ResolveValid(r, db, op.rep, op.faults);
    }
  }

  lemma {:induction false} RumoursAreEffects(r: Roster, db: Db, ops: seq<Op>)
    requires Loaded(r) && ValidDb(db)
    ensures Run(r, db, ops).rumours == UpsertAll(db.rumours, Effects(r, db, ops))
  {
    hide ValidDb, After, Loaded, Effect, UpsertRow;
    if ops != [] {
      var before, op := ops[..|ops| - 1], ops[|ops| - 1];
      RumoursAreEffects(r, db, before);
      RunValid(r, db, before);
      EffectIs(r, Run(r, db, before), op);
      var effect := Effect(r, Run(r, db, before), op);
      if effect == [] {
        assert Effects(r, db, before) + effect == Effects(r, db, before);
      } else {
        assert effect == [effect[0]];
        var all := Effects(r, db, before) + [effect[0]];
        assert all[..|all| - 1] == Effects(r, db, before);
      }
    }
  }

  /** From an empty rumours table, whatever fails on the way, the row of a key is the closed form of
      the reports for it that were stored. */
  lemma {:induction false} HistoryIsClosedForm(r: Roster, db: Db, ops: seq<Op>, key: Key)
    requires Loaded(r) && ValidDb(db) && db.rumours == RumourTable([], 0)
    ensures
      var rows := Run(r, db, ops).rumours.rows;
      var reports := ForKey(Effects(r, db, ops), key);
      var i := RumourIndex(rows, key);
      (i < |rows| <==> reports != []) && (i < |rows| ==> Summarises(rows[i], reports))
  {
    hide ValidDb, Loaded, Effects, Run, UpsertAll, Summarises;
    RumoursAreEffects(r, db, ops);
    HistoryClosedForm(Effects(r, db, ops), key);
  }

  // ---------- the names a report resolves to ----------

  /** p is what the report asks to store once its names lead to these rows. */
  ghost predicate NamesLead(r: Roster, players: PlayerTable, t: Tables, rep: Report, p: Params) {
    && p == ParamsFor(rep, p.key.player, p.key.toClub, p.fromClub)
    && PlayerLeadsTo(players, rep.player, p.key.player)
    && ClubIdentity.LeadsTo(r, t, rep.toClub, p.key.toClub)
    && (if NamesFromClub(rep)
        then p.fromClub.Some? && ClubIdentity.LeadsTo(r, t, rep.fromClub.value, p.fromClub.value)
        else p.fromClub.None?)
  }

  /** The tables have the same club and league rows, up to the columns a known club fills in. */
  ghost predicate SameClubRows(before: Tables, after: Tables) {
    && after.leagues == before.leagues && after.nextClub == before.nextClub && |after.clubs| == |before.clubs|
    && forall i :: 0 <= i < |before.clubs| ==>
      after.clubs[i].id == before.clubs[i].id && after.clubs[i].name == before.clubs[i].name
  }

  lemma {:induction false} ResolvedNames(r: Roster, db: Db, rep: Report, f: Faults)
    requires Loaded(r) && ValidDb(db) && Resolve(r, db, rep, f).1.Some?
    ensures
      var (db', p) := Resolve(r, db, rep, f);
      NamesLead(r, db'.players, db'.tables, rep, p.value)
  {
    hide ValidTables, ValidPlayers, ValidRumours, ValidEvents, References, GetOrCreate, GetOrCreatePlayer, Loaded;
    hide PlayerLeadsTo, ClubIdentity.LeadsTo;
    PlayerValid(db.players, rep.player);
    ClubIdentity.GetReturnsLeader(r, db.tables, rep.toClub);
    if NamesFromClub(rep) {
      var (tables, toClub) := GetOrCreate(r, db.tables, rep.toClub);
      GetOrCreateValid(r, db.tables, rep.toClub);
      ClubIdentity.GetKeepsLeader(r, tables, rep.fromClub.value, rep.toClub, toClub);
      ClubIdentity.GetReturnsLeader(r, tables, rep.fromClub.value);
    }
  }

  /** Getting a club that has a row creates none. */
  lemma {:induction false} KnownClubAgain(r: Roster, t: Tables, spelling: string, id: nat)
    requires ValidTables(t) && ClubIdentity.LeadsTo(r, t, spelling, id)
    ensures GetOrCreate(r, t, spelling).1 == id && SameClubRows(t, GetOrCreate(r, t, spelling).0)
  {
    hide Lower, Lookup, LeagueId;
    ClubIdentity.GetReturnsLeader(r, t, spelling);
    var i :| 0 <= i < |t.clubs| && t.clubs[i].id == id
      && Lower(t.clubs[i].name) == Lower(CanonicalName(r, spelling));
  }

  /** Names that lead to rows are resolved to those rows, whichever calls fail, and no row is added. */
  lemma {:induction false} ResolvedAgain(r: Roster, db: Db, rep: Report, f: Faults, p: Params)
    requires ValidDb(db) && NamesLead(r, db.players, db.tables, rep, p)
    ensures
      var (db', p') := Resolve(r, db, rep, f);
      && db'.players == db.players && SameClubRows(db.tables, db'.tables)
      && (p'.Some? ==> p'.value == p)
      && (f == NO_FAULTS ==> p'.Some?)
  {
    hide ValidTables, ValidPlayers, ValidRumours, ValidEvents, References, GetOrCreate, GetOrCreatePlayer;
    hide PlayerLeadsTo, ClubIdentity.LeadsTo;
    PlayerValid(db.players, rep.player);
    KnownClubAgain(r, db.tables, rep.toClub, p.key.toClub);
    if NamesFromClub(rep) {
      var tables := GetOrCreate(r, db.tables, rep.toClub).0;
      GetOrCreateValid(r, db.tables, rep.toClub);
      ClubIdentity.GetKeepsLeader(r, db.tables, rep.toClub, rep.fromClub.value, p.fromClub.value);
      KnownClubAgain(r, tables, rep.fromClub.value, p.fromClub.value);
    }
  }

  lemma {:induction false} GetKeepsNames(
    r: Roster, players: PlayerTable, t: Tables, club: string, rep: Report, p: Params)
    requires NamesLead(r, players, t, rep, p)
    ensures NamesLead(r, players, GetOrCreate(r, t, club).0, rep, p)
  {
    hide GetOrCreate, PlayerLeadsTo, ClubIdentity.LeadsTo;
    ClubIdentity.GetKeepsLeader(r, t, club, rep.toClub, p.key.toClub);
    if NamesFromClub(rep) {
      ClubIdentity.GetKeepsLeader(r, t, club, rep.fromClub.value, p.fromClub.value);
    }
  }

  lemma {:induction false} PlayerKeepsNames(
    r: Roster, players: PlayerTable, t: Tables, player: string, rep: Report, p: Params)
    requires NamesLead(r, players, t, rep, p)
    ensures NamesLead(r, GetOrCreatePlayer(players, player).0, t, rep, p)
  {
    hide GetOrCreatePlayer, PlayerLeadsTo, ClubIdentity.LeadsTo;
    PlayerKept(players, player, rep.player, p.key.player);
  }

  lemma {:induction false} SyncKeepsNames(r: Roster, players: PlayerTable, t: Tables, rep: Report, p: Params)
    requires Loaded(r) && ValidTables(t) && NamesLead(r, players, t, rep, p)
    ensures NamesLead(r, players, Synced(r, t), rep, p)
  {
    hide ValidTables, Loaded, Synced, PlayerLeadsTo, ClubIdentity.LeadsTo;
    ClubIdentity.StepKeepsLeader(r, t, ClubIdentity.Sync, rep.toClub, p.key.toClub);
    if NamesFromClub(rep) {
      ClubIdentity.StepKeepsLeader(r, t, ClubIdentity.Sync, rep.fromClub.value, p.fromClub.value);
    }
  }

  /** Resolving other names keeps the names' rows. */
  lemma {:induction false} ResolveKeepsNames(r: Roster, db: Db, other: Report, f: Faults, rep: Report, p: Params)
    requires NamesLead(r, db.players, db.tables, rep, p)
    ensures
      var db' := Resolve(r, db, other, f).0;
      NamesLead(r, db'.players, db'.tables, rep, p)
  {
    hide GetOrCreate, GetOrCreatePlayer, NamesLead;
    PlayerKeepsNames(r, db.players, db.tables, other.player, rep, p);
    var players := GetOrCreatePlayer(db.players, other.player).0;
    GetKeepsNames(r, players, db.tables, other.toClub, rep, p);
    if NamesFromClub(other) {
      GetKeepsNames(r, players, GetOrCreate(r, db.tables, other.toClub).0, other.fromClub.value, rep, p);
    }
  }

  // ---------- replay ----------

  /** The rumour p is for has this id and absorbs p. */
  ghost predicate RumourAbsorbs(t: RumourTable, p: Params, id: nat) {
    var i := RumourIndex(t.rows, p.key);
    i < |t.rows| && t.rows[i].id == id && Absorbs(t.rows[i], p)
  }

  /** The store has taken the report in: its names lead to a rumour that absorbs it, with its event. */
  ghost predicate Absorbed(r: Roster, db: Db, rep: Report, p: Params, id: nat) {
    && NamesLead(r, db.players, db.tables, rep, p)
    && RumourAbsorbs(db.rumours, p, id)
    && HasEvent(db.events, id, rep.articleId)
    && rep.sourceId in db.scores
    && rep.player != "" && rep.toClub != ""
  }

  /** A report all of whose store calls succeeded is absorbed. */
  lemma {:induction false} StoredIsAbsorbed(r: Roster, db: Db, rep: Report, f: Faults)
    requires Loaded(r) && ValidDb(db) && Upsert(r, db, rep, f).result.Stored?
    ensures
      var step := Upsert(r, db, rep, f);
      var p := Resolve(r, db, rep, f).1;
      p.Some? && Absorbed(r, step.db, rep, p.value, step.result.id)
  {
    hide ValidDb, Loaded, NamesLead, NamesStored, Absorbs, Resolve, SourcesOn, ScoresNudged, EventInserted, HasEvent;
    ResolvedNames(r, db, rep, f);
    ResolveValid(r, db, rep, f);
    var (db', p) := Resolve(r, db, rep, f);
    hide UpsertRow, RowOf, JustResolved;
    RowAt(db'.rumours, p.value, p.value.key);
    AbsorbsOwn(db'.rumours, p.value);
    EventThere(db'.events, EventFor(rep, p.value, RowOf(db'.rumours, p.value).id));
    var n := StoreReport(db', p.value, rep, f).nudge;
    if n.Some? {
      SourcesStay(db'.scores, n.value);
    }
  }

  lemma {:induction false} SourcesStay(scores: map<nat, real>, n: Nudge)
    ensures ScoresNudged(scores, n).Keys == scores.Keys
  {
  }

  lemma {:induction false} EventThere(events: seq<Event>, e: Event)
    ensures HasEvent(EventInserted(events, e), e.rumourId, e.articleId)
    ensures forall id, article :: HasEvent(events, id, article) ==> HasEvent(EventInserted(events, e), id, article)
  {
    var events' := EventInserted(events, e);
    if !HasEvent(events, e.rumourId, e.articleId) {
      assert events'[|events|] == e;
    }
    forall id, article | HasEvent(events, id, article) ensures HasEvent(events', id, article) {
      var i :| 0 <= i < |events| && events[i].rumourId == id && events[i].articleId == article;
      assert events'[i] == events[i];
    }
  }

  lemma {:induction false} RumourStillAbsorbs(t: RumourTable, q: Params, p: Params, id: nat)
    requires RumourAbsorbs(t, p, id)
    ensures RumourAbsorbs(UpsertRow(t, q), p, id)
  {
    hide Absorbs, UpsertRow;
    RowAt(t, q, p.key);
    AbsorbsStill(t.rows[RumourIndex(t.rows, p.key)], p, q);
  }

  /** Storing another report leaves an absorbed one absorbed. */
  lemma {:induction false} StoreKeepsAbsorbed(
    r: Roster, db: Db, q: Params, other: Report, f: Faults, rep: Report, p: Params, id: nat)
    requires Absorbed(r, db, rep, p, id)
    ensures Absorbed(r, StoreReport(db, q, other, f).db, rep, p, id)
  {
    hide NamesLead, RumourAbsorbs, UpsertRow, RowOf, JustResolved, SourcesOn, HasEvent, EventInserted, ScoresNudged;
    RumourStillAbsorbs(db.rumours, q, p, id);
    EventThere(db.events, EventFor(other, q, RowOf(db.rumours, q).id));
    var n := StoreReport(db, q, other, f).nudge;
    if n.Some? {
      SourcesStay(db.scores, n.value);
    }
  }

  lemma {:induction false} AfterKeepsAbsorbed(r: Roster, db: Db, op: Op, rep: Report, p: Params, id: nat)
    requires Loaded(r) && ValidDb(db) && Absorbed(r, db, rep, p, id)
    ensures Absorbed(r, After(r, db, op), rep, p, id)
  {
    hide ValidTables, ValidPlayers, ValidRumours, ValidEvents, References, Loaded, NamesLead;
    hide Absorbs, Resolve, Synced, StoreReport, HasEvent, NamesStored;
    match op {
      case Deliver(other, f) =>
        ResolveValid(r, db, other, f);
        ResolveKeepsNames(r, db, other, f, rep, p);
        var (db', q) := Resolve(r, db, other, f);
        if q.Some? {
          StoreKeepsAbsorbed(r, db', q.value, other, f, rep, p, id);
        }
      case SyncRoster =>
        SyncKeepsNames(r, db.players, db.tables, rep, p);
    }
  }

  lemma {:induction false} RunKeepsAbsorbed(r: Roster, db: Db, ops: seq<Op>, rep: Report, p: Params, id: nat)
    requires Loaded(r) && ValidDb(db) && Absorbed(r, db, rep, p, id)
    ensures Absorbed(r, Run(r, db, ops), rep, p, id)
  {
    hide ValidDb, Loaded, Absorbed, After;
    if ops != [] {
      var before := ops[..|ops| - 1];
      RunKeepsAbsorbed(r, db, before, rep, p, id);
      RunValid(r, db, before);
      AfterKeepsAbsorbed(r, Run(r, db, before), ops[|ops| - 1], rep, p, id);
    }
  }

  /** Of the rumours, one row's selling club (if the report names one), summary and confidence are set to
      the report's, and nothing else differs. */
  ghost predicate MovedBack(before: seq<Rumour>, after: seq<Rumour>, id: nat, p: Params) {
    && |after| == |before|
    && forall i :: 0 <= i < |before| ==>
      after[i] ==
        if before[i].id == id then
          before[i].(
            fromClub := if p.fromClub.Some? then p.fromClub else before[i].fromClub,
            summary := p.summary, confidence := p.confidence)
        else before[i]
  }

  /** Replaying an absorbed report, whichever of its store calls fail, changes no event, no score and no
      player, adds no club, and moves its own rumour's latest-report columns back if its upsert goes
      through. */
  lemma {:induction false} ReplayAbsorbed(r: Roster, db: Db, rep: Report, f: Faults, p: Params, id: nat)
    requires Loaded(r) && ValidDb(db) && Absorbed(r, db, rep, p, id)
    ensures
      var step := Upsert(r, db, rep, f);
      && step.db.events == db.events && step.db.scores == db.scores && step.db.players == db.players
      && SameClubRows(db.tables, step.db.tables)
      && step.nudge == None
      && (if Effect(r, db, Deliver(rep, f)) == [] then step.db.rumours == db.rumours
          else MovedBack(db.rumours.rows, step.db.rumours.rows, id, p))
      && (f == NO_FAULTS ==> step.result == Stored(id) && Effect(r, db, Deliver(rep, f)) != [])
  {
    hide ValidTables, ValidPlayers, ValidEvents, ValidRumours, References, Loaded, NamesLead, Absorbs, SourcesOn;
    hide ScoresNudged, Updated, Resolve, SameClubRows, MovedBack, NamesStored, UpsertRow, JustResolved;
    var (db', p') := Resolve(r, db, rep, f);
    ResolveValid(r, db, rep, f);
    ResolvedAgain(r, db, rep, f, p);
    if p'.Some? && f.upsert != FailsBefore {
      ReplayedRows(db.rumours, p, id);
    }
  }

  lemma {:induction false} ReplayedRows(t: RumourTable, p: Params, id: nat)
    requires ValidRumours(t) && RumourAbsorbs(t, p, id)
    ensures MovedBack(t.rows, UpsertRow(t, p).rows, id, p)
    ensures RowOf(t, p).id == id && !JustResolved(t, p)
  {
    hide Absorbs, Updated;
    var row := t.rows[RumourIndex(t.rows, p.key)];
    AbsorbedUpdate(row, p);
    AbsorbedStatus(row, p);
  }

  lemma {:induction false} AbsorbedStatus(row: Rumour, p: Params)
    requires Absorbs(row, p)
    ensures Updated(row, p).status == row.status && (row.status.IsTerminal() || !Updated(row, p).status.IsTerminal())
  {
    AbsorbedUpdate(row, p);
    ForwardIs(row.status, p.status);
  }

  /** A report whose store calls all succeeded, replayed after any history, leaves the rumour's
      status, fee range and id, every event and every source score as they are, and adds no row. */
  lemma {:induction false} ReplayChangesNothing(r: Roster, db: Db, rep: Report, f: Faults, ops: seq<Op>, f': Faults)
    requires Loaded(r) && ValidDb(db) && Upsert(r, db, rep, f).result.Stored?
    ensures Resolve(r, db, rep, f).1.Some?
    ensures
      var first, p := Upsert(r, db, rep, f), Resolve(r, db, rep, f).1.value;
      var later := Run(r, first.db, ops);
      var again := Upsert(r, later, rep, f');
      && again.db.events == later.events && again.db.scores == later.scores && again.db.players == later.players
      && SameClubRows(later.tables, again.db.tables)
      && again.nudge == None
      && (again.db.rumours == later.rumours
          || MovedBack(later.rumours.rows, again.db.rumours.rows, first.result.id, p))
      && (f' == NO_FAULTS ==>
            again.result == first.result
            && MovedBack(later.rumours.rows, again.db.rumours.rows, first.result.id, p))
  {
    hide ValidDb, Loaded, Absorbed, Upsert, Run, Resolve, MovedBack, SameClubRows, Effect;
    var first := Upsert(r, db, rep, f);
    var p := Resolve(r, db, rep, f).1;
    StoredIsAbsorbed(r, db, rep, f);
    UpsertValid(r, db, rep, f);
    RunKeepsAbsorbed(r, first.db, ops, rep, p.value, first.result.id);
    RunValid(r, first.db, ops);
    ReplayAbsorbed(r, Run(r, first.db, ops), rep, f', p.value, first.result.id);
  }

  // ---------- which reports share a rumour ----------

  /** The reports name one transfer: the same player and destination, up to spelling, in one window. */
  ghost predicate SameTransfer(r: Roster, a: Report, b: Report) {
    && SameUpToCase(TrimSpace(a.player), TrimSpace(b.player))
    && SameUpToCase(CanonicalName(r, a.toClub), CanonicalName(r, b.toClub))
    && a.window == b.window
  }

  lemma {:induction false} SamePlayer(t: PlayerTable, a: string, b: string, i: nat, j: nat)
    requires ValidPlayers(t) && PlayerLeadsTo(t, a, i) && PlayerLeadsTo(t, b, j)
    ensures i == j <==> SameUpToCase(TrimSpace(a), TrimSpace(b))
  {
    hide Lower, TrimSpace;
  }

  lemma {:induction false} SameClub(r: Roster, t: Tables, a: string, b: string, i: nat, j: nat)
    requires ValidTables(t) && ClubIdentity.LeadsTo(r, t, a, i) && ClubIdentity.LeadsTo(r, t, b, j)
    ensures i == j <==> SameUpToCase(CanonicalName(r, a), CanonicalName(r, b))
  {
    hide Lower, CanonicalName;
  }

  lemma {:induction false} AbsorbedTogether(r: Roster, db: Db, a: Report, p: Params, i: nat, b: Report, q: Params, j: nat)
    requires ValidDb(db) && Absorbed(r, db, a, p, i) && Absorbed(r, db, b, q, j)
    ensures i == j <==> SameTransfer(r, a, b)
  {
    hide ValidTables, ValidPlayers, ValidEvents, References, PlayerLeadsTo, ClubIdentity.LeadsTo, Absorbs, HasEvent;
    hide Lower, TrimSpace, CanonicalName;
    SamePlayer(db.players, a.player, b.player, p.key.player, q.key.player);
    SameClub(r, db.tables, a.toClub, b.toClub, p.key.toClub, q.key.toClub);
    var x, y := RumourIndex(db.rumours.rows, p.key), RumourIndex(db.rumours.rows, q.key);
    assert i == j ==> x == y;
  }

  /** Two reports stored in one history, whatever happens between them, return the same rumour exactly when
      they name the same transfer. */
  lemma {:induction false} SharedRumour(r: Roster, db: Db, a: Report, f: Faults, ops: seq<Op>, b: Report, g: Faults)
    requires Loaded(r) && ValidDb(db) && Upsert(r, db, a, f).result.Stored?
    requires Upsert(r, Run(r, Upsert(r, db, a, f).db, ops), b, g).result.Stored?
    ensures
      var first := Upsert(r, db, a, f);
      var second := Upsert(r, Run(r, first.db, ops), b, g);
      second.result == first.result <==> SameTransfer(r, a, b)
  {
    hide ValidDb, Loaded, Absorbed, Upsert, Run, Resolve, SameTransfer;
    var first, p := Upsert(r, db, a, f), Resolve(r, db, a, f).1;
    StoredIsAbsorbed(r, db, a, f);
    UpsertValid(r, db, a, f);
    var later := Run(r, first.db, ops);
    RunKeepsAbsorbed(r, first.db, ops, a, p.value, first.result.id);
    RunValid(r, first.db, ops);
    var second, q := Upsert(r, later, b, g), Resolve(r, later, b, g).1;
    StoredIsAbsorbed(r, later, b, g);
    UpsertValid(r, later, b, g);
    AfterKeepsAbsorbed(r, later, Deliver(b, g), a, p.value, first.result.id);
    AbsorbedTogether(r, second.db, a, p.value, first.result.id, b, q.value, second.result.id);
  }
}

/** What clustering one extracted article does to the store: resolve the names, upsert the
    rumour, append the event, move the source scores once the rumour resolves
    (internal/cluster/cluster.go, internal/store/rumours.go, internal/store/players.go). */
module Clustering {
  import opened Wrappers
  import opened Text
  import opened Roster
  import opened ClubTables
  import opened RosterStatements
  import opened Rumours

  datatype PlayerRow = PlayerRow(id: nat, name: string)

  datatype PlayerTable = PlayerTable(rows: seq<PlayerRow>, next: nat)

  datatype Event = Event(
    rumourId: nat, articleId: nat, sourceId: nat, status: Status,
    feeMin: Option<int>, feeMax: Option<int>, summary: Option<string>, confidence: real)

  /** The tables clustering works on; scores maps a source to its reliability score. */
  datatype Db = Db(tables: Tables, players: PlayerTable, rumours: RumourTable, events: seq<Event>, scores: map<nat, real>)

  /** One article's extraction. */
  datatype Report = Report(
    articleId: nat, sourceId: nat, player: string, fromClub: Option<string>, toClub: string, status: Status,
    feeMin: Option<int>, feeMax: Option<int>, summary: string, confidence: real, window: string)

  /** How a store call ends: it works, or it reports an error before or after it took effect. */
  datatype Call = Works | FailsBefore | FailsAfter

  /** How the store calls of one upsert end. */
  datatype Faults = Faults(player: Call, toClub: Call, fromClub: Call, upsert: Call, event: Call, nudge: Call)

  const NO_FAULTS := Faults(Works, Works, Works, Works, Works, Works)

  datatype UpsertResult = Stored(id: nat) | ErrIncomplete | ErrStore

  /** A move of source scores: the rumour that resolved, how, and the sources moved. */
  datatype Nudge = Nudge(rumourId: nat, confirmed: bool, sources: set<nat>)

  datatype Step = Step(db: Db, result: UpsertResult, nudge: Option<Nudge>)

  // ---------- players ----------

  function PlayerIndex(rows: seq<PlayerRow>, key: string): (i: nat)
    ensures i <= |rows|
    ensures i < |rows| ==> Lower(rows[i].name) == key
    ensures forall j :: 0 <= j < i ==> Lower(rows[j].name) != key
  {
    if rows == [] then 0
    else if Lower(rows[0].name) == key then 0
    else 1 + PlayerIndex(rows[1..], key)
  }

  /** GetOrCreatePlayer: the new table and the id returned. */
  function GetOrCreatePlayer(t: PlayerTable, name: string): (PlayerTable, nat) {
    var trimmed := TrimSpace(name);
    var i := PlayerIndex(t.rows, Lower(trimmed));
    if i < |t.rows| then (t, t.rows[i].id)
    else (PlayerTable(t.rows + [PlayerRow(t.next, trimmed)], t.next + 1), t.next)
  }

  ghost predicate ValidPlayers(t: PlayerTable) {
    && (forall i :: 0 <= i < |t.rows| ==> t.rows[i].id < t.next)
    && (forall i, j :: 0 <= i < j < |t.rows| ==> t.rows[i].id != t.rows[j].id)
    && (forall i, j :: 0 <= i < j < |t.rows| ==> Lower(t.rows[i].name) != Lower(t.rows[j].name))
  }

  /** The player's row: the one stored under the trimmed name, up to case. */
  ghost predicate PlayerLeadsTo(t: PlayerTable, name: string, id: nat) {
    exists i :: 0 <= i < |t.rows| && t.rows[i].id == id && Lower(t.rows[i].name) == Lower(TrimSpace(name))
  }

  // ---------- events and scores ----------

  /** The unique index on (rumour_id, article_id) finds the event. */
  predicate HasEvent(events: seq<Event>, rumourId: nat, articleId: nat) {
    exists i :: 0 <= i < |events| && events[i].rumourId == rumourId && events[i].articleId == articleId
  }

  /** INSERT .. ON CONFLICT DO NOTHING. */
  function EventInserted(events: seq<Event>, e: Event): seq<Event> {
    if HasEvent(events, e.rumourId, e.articleId) then events else events + [e]
  }

  /** SELECT DISTINCT source_id FROM rumour_events WHERE rumour_id = id. */
  function SourcesOn(events: seq<Event>, id: nat): set<nat> {
    set i | 0 <= i < |events| && events[i].rumourId == id :: events[i].sourceId
  }

  /** LEAST(100, GREATEST(0, x)). */
  function Clamp(x: real): real {
    if x < 0.0 then 0.0 else if x > 100.0 then 100.0 else x
  }

  const RELIABILITY_NUDGE: real := 2.0

  function Delta(n: Nudge): real {
    if n.confirmed then RELIABILITY_NUDGE else -RELIABILITY_NUDGE
  }

  /** NudgeSourceReliability. */
  function ScoresNudged(scores: map<nat, real>, n: Nudge): map<nat, real> {
    map s | s in scores :: if s in n.sources then Clamp(scores[s] + Delta(n)) else scores[s]
  }

  // ---------- one upsert ----------

  function NamesFromClub(rep: Report): bool {
    rep.fromClub.Some? && rep.fromClub.value != ""
  }

  function ParamsFor(rep: Report, player: nat, toClub: nat, fromClub: Option<nat>): Params {
    Params(Key(player, toClub, rep.window), fromClub, rep.status, rep.feeMin, rep.feeMax,
           if rep.summary == "" then None else Some(rep.summary), rep.confidence)
  }

  /** The names resolved one after the other; no parameters when a store call failed on the way. */
  function Resolve(r: Roster, db: Db, rep: Report, f: Faults): (Db, Option<Params>) {
    if f.player == FailsBefore then (db, None)
    else
      var (players, player) := GetOrCreatePlayer(db.players, rep.player);
      var db1 := db.(players := players);
      if f.player != Works || f.toClub == FailsBefore then (db1, None)
      else
        var (tables, toClub) := GetOrCreate(r, db1.tables, rep.toClub);
        var db2 := db1.(tables := tables);
        if f.toClub != Works then (db2, None)
        else if !NamesFromClub(rep) then (db2, Some(ParamsFor(rep, player, toClub, None)))
        else if f.fromClub == FailsBefore then (db2, None)
        else
          var (tables', fromClub) := GetOrCreate(r, db2.tables, rep.fromClub.value);
          var db3 := db2.(tables := tables');
          if f.fromClub != Works then (db3, None)
          else (db3, Some(ParamsFor(rep, player, toClub, Some(fromClub))))
  }

  function EventFor(rep: Report, p: Params, id: nat): Event {
    Event(id, rep.articleId, rep.sourceId, rep.status, rep.feeMin, rep.feeMax, p.summary, rep.confidence)
  }

  /** Upsert the rumour, append the event, and nudge if the rumour has just resolved. An event of an
      unknown source breaks its foreign key. */
  function StoreReport(db: Db, p: Params, rep: Report, f: Faults): Step {
    if f.upsert == FailsBefore then Step(db, ErrStore, None)
    else
      var row := RowOf(db.rumours, p);
      var resolved := JustResolved(db.rumours, p);
      var db1 := db.(rumours := UpsertRow(db.rumours, p));
      if f.upsert != Works || f.event == FailsBefore || rep.sourceId !in db.scores then Step(db1, ErrStore, None)
      else
        var db2 := db1.(events := EventInserted(db1.events, EventFor(rep, p, row.id)));
        if f.event != Works then Step(db2, ErrStore, None)
        else if !resolved then Step(db2, Stored(row.id), None)
        else if f.nudge == FailsBefore then Step(db2, ErrStore, None)
        else
          var n := Nudge(row.id, row.status != Collapsed, SourcesOn(db2.events, row.id));
          Step(db2.(scores := ScoresNudged(db2.scores, n)), if f.nudge == Works then Stored(row.id) else ErrStore, Some(n))
  }

  /** Clusterer.Upsert. */
  function Upsert(r: Roster, db: Db, rep: Report, f: Faults): Step {
    if rep.player == "" || rep.toClub == "" then Step(db, ErrIncomplete, None)
    else
      var (db', p) := Resolve(r, db, rep, f);
      match p
      case None => Step(db', ErrStore, None)
      case Some(p) => StoreReport(db', p, rep, f)
  }

  // ---------- the constraints ----------

  ghost predicate ValidEvents(events: seq<Event>) {
    forall i, j :: 0 <= i < j < |events| ==>
      events[i].rumourId != events[j].rumourId || events[i].articleId != events[j].articleId
  }

  ghost predicate ScoresInRange(scores: map<nat, real>) {
    forall s :: s in scores ==> 0.0 <= scores[s] <= 100.0
  }

  ghost predicate HasPlayer(players: PlayerTable, id: nat) {
    exists i :: 0 <= i < |players.rows| && players.rows[i].id == id
  }

  ghost predicate HasClub(t: Tables, id: nat) {
    exists i :: 0 <= i < |t.clubs| && t.clubs[i].id == id
  }

  ghost predicate HasRumour(t: RumourTable, id: nat) {
    exists i :: 0 <= i < |t.rows| && t.rows[i].id == id
  }

  /** The player and the clubs a rumour names have rows. */
  ghost predicate NamesStored(players: PlayerTable, t: Tables, key: Key, fromClub: Option<nat>) {
    HasPlayer(players, key.player) && HasClub(t, key.toClub) && (fromClub.Some? ==> HasClub(t, fromClub.value))
  }

  /** rumours references players and clubs. */
  ghost predicate RumourReferences(rumours: seq<Rumour>, players: PlayerTable, t: Tables) {
    forall i :: 0 <= i < |rumours| ==> NamesStored(players, t, rumours[i].key, rumours[i].fromClub)
  }

  /** rumour_events references rumours and sources. */
  ghost predicate EventReferences(events: seq<Event>, rumours: RumourTable, sources: set<nat>) {
    forall i :: 0 <= i < |events| ==> HasRumour(rumours, events[i].rumourId) && events[i].sourceId in sources
  }

  ghost predicate References(db: Db) {
    RumourReferences(db.rumours.rows, db.players, db.tables) && EventReferences(db.events, db.rumours, db.scores.Keys)
  }

  ghost predicate ValidDb(db: Db) {
    && ValidTables(db.tables) && ValidPlayers(db.players) && ValidRumours(db.rumours)
    && ValidEvents(db.events) && ScoresInRange(db.scores) && References(db)
  }

  /** The tables before the first report. */
  function NewDb(tables: Tables, scores: map<nat, real>): Db {
    Db(tables, PlayerTable([], 0), RumourTable([], 0), [], scores)
  }

  lemma {:induction false} NewDbValid(tables: Tables, scores: map<nat, real>)
    requires ValidTables(tables) && ScoresInRange(scores)
    ensures ValidDb(NewDb(tables, scores))
  {
    hide ValidTables;
  }

  lemma {:induction false} PlayerValid(t: PlayerTable, name: string)
    requires ValidPlayers(t)
    ensures ValidPlayers(GetOrCreatePlayer(t, name).0)
    ensures PlayerLeadsTo(GetOrCreatePlayer(t, name).0, name, GetOrCreatePlayer(t, name).1)
    ensures forall id: nat :: PlayerLeadsTo(t, name, id) ==> GetOrCreatePlayer(t, name) == (t, id)
    ensures (forall id: nat :: !PlayerLeadsTo(t, name, id)) ==>
      GetOrCreatePlayer(t, name).0.rows == t.rows + [PlayerRow(t.next, TrimSpace(name))]
  {
    hide Lower, TrimSpace;
    var (t', id) := GetOrCreatePlayer(t, name);
    var i := PlayerIndex(t.rows, Lower(TrimSpace(name)));
    assert t'.rows[i].id == id && Lower(t'.rows[i].name) == Lower(TrimSpace(name));
    assert i < |t.rows| ==> PlayerLeadsTo(t, name, t.rows[i].id);
  }

  lemma {:induction false} PlayerKept(t: PlayerTable, other: string, name: string, id: nat)
    requires PlayerLeadsTo(t, name, id)
    ensures PlayerLeadsTo(GetOrCreatePlayer(t, other).0, name, id)
  {
    hide Lower, TrimSpace;
    var t' := GetOrCreatePlayer(t, other).0;
    var i :| 0 <= i < |t.rows| && t.rows[i].id == id && Lower(t.rows[i].name) == Lower(TrimSpace(name));
    assert t'.rows[i] == t.rows[i];
  }

  // ---------- the references hold ----------

  lemma {:induction false} PlayersKept(t: PlayerTable, name: string)
    ensures forall id: nat :: HasPlayer(t, id) ==> HasPlayer(GetOrCreatePlayer(t, name).0, id)
    ensures HasPlayer(GetOrCreatePlayer(t, name).0, GetOrCreatePlayer(t, name).1)
  {
    hide Lower, TrimSpace;
    var (t', id') := GetOrCreatePlayer(t, name);
    assert t'.rows[PlayerIndex(t.rows, Lower(TrimSpace(name)))].id == id';
    forall id: nat | HasPlayer(t, id) ensures HasPlayer(t', id) {
      var i :| 0 <= i < |t.rows| && t.rows[i].id == id;
      assert t'.rows[i].id == id;
    }
  }

  lemma {:induction false} ClubsKept(r: Roster, t: Tables, name: string)
    ensures forall id: nat :: HasClub(t, id) ==> HasClub(GetOrCreate(r, t, name).0, id)
    ensures HasClub(GetOrCreate(r, t, name).0, GetOrCreate(r, t, name).1)
  {
    hide Lower, Proposed;
    var (t', id') := GetOrCreate(r, t, name);
    assert t'.clubs[ClubIndex(t.clubs, Lower(Proposed(r, t.leagues, t.nextClub, name).name))].id == id' by {
      ProposedId(r, t.leagues, t.nextClub, name);
    }
    forall id: nat | HasClub(t, id) ensures HasClub(t', id) {
      var i :| 0 <= i < |t.clubs| && t.clubs[i].id == id;
      assert t'.clubs[i].id == id;
    }
  }

  lemma {:induction false} ProposedId(r: Roster, leagues: seq<LeagueRow>, id: nat, name: string)
    ensures Proposed(r, leagues, id, name).id == id
  {
  }

  /** Rumours still refer to rows once there are more players and clubs. */
  lemma {:induction false} MoreNames(rumours: seq<Rumour>, players: PlayerTable, t: Tables, players': PlayerTable, t': Tables)
    requires RumourReferences(rumours, players, t)
    requires forall id: nat :: HasPlayer(players, id) ==> HasPlayer(players', id)
    requires forall id: nat :: HasClub(t, id) ==> HasClub(t', id)
    ensures RumourReferences(rumours, players', t')
  {
    hide HasPlayer, HasClub;
  }

  lemma {:induction false} UpsertRowReferences(t: RumourTable, p: Params, players: PlayerTable, clubs: Tables)
    requires RumourReferences(t.rows, players, clubs) && NamesStored(players, clubs, p.key, p.fromClub)
    ensures RumourReferences(UpsertRow(t, p).rows, players, clubs)
    ensures forall id: nat :: HasRumour(t, id) ==> HasRumour(UpsertRow(t, p), id)
    ensures HasRumour(UpsertRow(t, p), RowOf(t, p).id)
  {
    hide HasPlayer, HasClub;
    var t' := UpsertRow(t, p);
    assert t'.rows[RumourIndex(t.rows, p.key)].id == RowOf(t, p).id;
    forall id: nat | HasRumour(t, id) ensures HasRumour(t', id) {
      var i :| 0 <= i < |t.rows| && t.rows[i].id == id;
      assert t'.rows[i].id == id;
    }
  }

  // ---------- the constraints are kept ----------

  /** Resolving names touches only players, clubs and leagues, and leaves a row for every name. */
  lemma {:induction false} ResolveValid(r: Roster, db: Db, rep: Report, f: Faults)
    requires ValidDb(db)
    ensures ValidDb(Resolve(r, db, rep, f).0)
    ensures
      var (db', p) := Resolve(r, db, rep, f);
      && db'.rumours == db.rumours && db'.events == db.events && db'.scores == db.scores
      && (p.Some? ==> NamesStored(db'.players, db'.tables, p.value.key, p.value.fromClub))
  {
    hide ValidTables, ValidPlayers, ValidRumours, ValidEvents, GetOrCreate, GetOrCreatePlayer, HasPlayer, HasClub;
    hide RumourReferences, EventReferences;
    PlayerValid(db.players, rep.player);
    PlayersKept(db.players, rep.player);
    var players := GetOrCreatePlayer(db.players, rep.player).0;
    GetOrCreateValid(r, db.tables, rep.toClub);
    ClubsKept(r, db.tables, rep.toClub);
    var tables := GetOrCreate(r, db.tables, rep.toClub).0;
    MoreNames(db.rumours.rows, db.players, db.tables, players, db.tables);
    MoreNames(db.rumours.rows, players, db.tables, players, tables);
    if NamesFromClub(rep) {
      GetOrCreateValid(r, tables, rep.fromClub.value);
      ClubsKept(r, tables, rep.fromClub.value);
      MoreNames(db.rumours.rows, players, tables, players, GetOrCreate(r, tables, rep.fromClub.value).0);
    }
  }

  lemma {:induction false} StoreValid(db: Db, p: Params, rep: Report, f: Faults)
    requires ValidDb(db) && NamesStored(db.players, db.tables, p.key, p.fromClub)
    ensures ValidDb(StoreReport(db, p, rep, f).db)
    ensures StoreReport(db, p, rep, f).db.scores.Keys == db.scores.Keys
  {
    hide ValidTables, ValidPlayers, ValidRumours, UpsertRow, RowOf, JustResolved, SourcesOn, HasRumour, RumourReferences;
    hide NamesStored;
    UpsertRowValid(db.rumours, p);
    UpsertRowReferences(db.rumours, p, db.players, db.tables);
  }

  /** Whichever store call fails, and however, every constraint holds afterwards. */
  lemma {:induction false} UpsertValid(r: Roster, db: Db, rep: Report, f: Faults)
    requires ValidDb(db)
    ensures ValidDb(Upsert(r, db, rep, f).db)
    ensures Upsert(r, db, rep, f).db.scores.Keys == db.scores.Keys
  {
    hide ValidDb, Resolve, StoreReport, NamesStored;
    ResolveValid(r, db, rep, f);
    var (db', p) := Resolve(r, db, rep, f);
    if p.Some? {
      StoreValid(db', p.value, rep, f);
    }
  }
}

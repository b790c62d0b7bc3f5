/** When and by how much source scores move over a whole history. */
module NudgeHistory {
  import opened Wrappers
  import opened Roster
  import opened RosterLookup
  import opened ClubTables
  import opened RosterStatements
  import opened Rumours
  import opened Clustering
  import opened RumourHistory

  /** The nudge an operation makes, if any. */
  ghost function NudgeOf(r: Roster, db: Db, op: Op): seq<Nudge> {
    match op
    case SyncRoster => []
    case Deliver(rep, faults) =>
      match Upsert(r, db, rep, faults).nudge
      case None => []
      case Some(n) => [n]
  }

  /** Every nudge of a history, in order. */
  ghost function Nudges(r: Roster, db: Db, ops: seq<Op>): seq<Nudge> {
    if ops == [] then []
    else Nudges(r, db, ops[..|ops| - 1]) + NudgeOf(r, Run(r, db, ops[..|ops| - 1]), ops[|ops| - 1])
  }

  /** The rumour with this id is stored with this status. */
  ghost predicate StoredAs(t: RumourTable, id: nat, status: Status) {
    exists i :: 0 <= i < |t.rows| && t.rows[i].id == id && t.rows[i].status == status
  }

  ghost predicate Resolved(t: RumourTable, id: nat) {
    StoredAs(t, id, Confirmed) || StoredAs(t, id, Collapsed)
  }

  function StatusOf(n: Nudge): Status {
    if n.confirmed then Confirmed else Collapsed
  }

  // ---------- one operation ----------

  lemma {:induction false} UpsertKeepsResolved(t: RumourTable, p: Params, id: nat, status: Status)
    requires StoredAs(t, id, status) && status.IsTerminal()
    ensures StoredAs(UpsertRow(t, p), id, status)
  {
    var i :| 0 <= i < |t.rows| && t.rows[i].id == id && t.rows[i].status == status;
    ForwardIs(status, p.status);
    assert UpsertRow(t, p).rows[i].id == id && UpsertRow(t, p).rows[i].status == status;
  }

  /** A resolving upsert finds the rumour unresolved and leaves it resolved. */
  lemma {:induction false} ResolvingUpsert(t: RumourTable, p: Params)
    requires ValidRumours(t) && JustResolved(t, p)
    ensures !Resolved(t, RowOf(t, p).id)
    ensures StoredAs(UpsertRow(t, p), RowOf(t, p).id, RowOf(t, p).status) && RowOf(t, p).status.IsTerminal()
  {
    hide Updated;
    var i := RumourIndex(t.rows, p.key);
    assert UpsertRow(t, p).rows[i] == RowOf(t, p);
    UpdateKeepsId(t, p);
  }

  lemma {:induction false} UpdateKeepsId(t: RumourTable, p: Params)
    ensures RowOf(t, p).id == if RumourIndex(t.rows, p.key) < |t.rows| then t.rows[RumourIndex(t.rows, p.key)].id else t.next
  {
  }

  /** A resolved rumour keeps its status through any operation. */
  lemma {:induction false} AfterKeepsResolved(r: Roster, db: Db, op: Op, id: nat, status: Status)
    requires ValidDb(db) && StoredAs(db.rumours, id, status) && status.IsTerminal()
    ensures StoredAs(After(r, db, op).rumours, id, status)
  {
    hide ValidDb, After, Effect, StoredAs, UpsertRow;
    EffectIs(r, db, op);
    if Effect(r, db, op) != [] {
      UpsertKeepsResolved(db.rumours, Effect(r, db, op)[0], id, status);
    }
  }

  /** A score moved by so much, stopping at the end of [0, 100] it would pass. */
  ghost predicate MovedBy(before: real, after: real, delta: real) {
    && (0.0 <= before + delta <= 100.0 ==> after == before + delta)
    && (before + delta > 100.0 ==> after == 100.0)
    && (before + delta < 0.0 ==> after == 0.0)
  }

  /** The source has reported on the rumour. */
  ghost predicate ReportedOn(events: seq<Event>, source: nat, rumourId: nat) {
    exists i :: 0 <= i < |events| && events[i].rumourId == rumourId && events[i].sourceId == source
  }

  /** A nudge moves the scores of exactly the sources that have reported on the rumour, by 2 up when it
      is confirmed and 2 down when it collapsed. */
  ghost predicate MovesScores(events: seq<Event>, before: map<nat, real>, after: map<nat, real>, n: Nudge) {
    && after.Keys == before.Keys
    && forall s :: s in before ==>
      if ReportedOn(events, s, n.rumourId) then MovedBy(before[s], after[s], if n.confirmed then 2.0 else -2.0)
      else after[s] == before[s]
  }

  lemma {:induction false} NudgeMovesScores(events: seq<Event>, scores: map<nat, real>, n: Nudge)
    requires n.sources == SourcesOn(events, n.rumourId)
    ensures MovesScores(events, scores, ScoresNudged(scores, n), n)
    ensures forall s :: s in n.sources <==> ReportedOn(events, s, n.rumourId)
  {
  }

  /** A nudge happens only when the operation resolves the rumour; it moves exactly the sources with an
      event on the rumour at that moment, up or down by how it resolved. */
  lemma {:induction false} NudgeIs(r: Roster, db: Db, op: Op)
    requires ValidDb(db) && NudgeOf(r, db, op) != []
    ensures
      var n := NudgeOf(r, db, op)[0];
      var db' := After(r, db, op);
      && NudgeOf(r, db, op) == [n]
      && !Resolved(db.rumours, n.rumourId)
      && StoredAs(db'.rumours, n.rumourId, StatusOf(n))
      && n.sources == SourcesOn(db'.events, n.rumourId)
      && db'.scores == ScoresNudged(db.scores, n)
      && MovesScores(db'.events, db.scores, db'.scores, n)
  {
    hide ValidTables, ValidPlayers, ValidEvents, ValidRumours, References, NamesStored, Resolve, UpsertRow, RowOf;
    hide JustResolved, StoredAs, SourcesOn, ScoresNudged, EventInserted, MovesScores;
    var (db', p) := Resolve(r, db, op.rep, op.faults);
    ResolveValid(r, db, op.rep, op.faults);
    ResolvingUpsert(db'.rumours, p.value);
    NudgeMovesScores(After(r, db, op).events, db.scores, NudgeOf(r, db, op)[0]);
  }

  lemma {:induction false} NoNudgeNoMove(r: Roster, db: Db, op: Op)
    requires ValidDb(db) && NudgeOf(r, db, op) == []
    ensures After(r, db, op).scores == db.scores
  {
    hide ValidDb, Resolve, UpsertRow, RowOf, JustResolved, SourcesOn, ScoresNudged, EventInserted, Synced;
    if op.Deliver? {
      ResolveValid(r, db, op.rep, op.faults);
    }
  }

  // ---------- at most once ----------

  /** Every nudged rumour is stored with the status it resolved to. */
  lemma {:induction false} NudgedStayResolved(r: Roster, db: Db, ops: seq<Op>)
    requires Loaded(r) && ValidDb(db)
    ensures forall n :: n in Nudges(r, db, ops) ==> StoredAs(Run(r, db, ops).rumours, n.rumourId, StatusOf(n))
  {
    hide ValidDb, Loaded, After, StoredAs, NudgeOf;
    if ops != [] {
      var before, op := ops[..|ops| - 1], ops[|ops| - 1];
      NudgedStayResolved(r, db, before);
      RunValid(r, db, before);
      forall n | n in Nudges(r, db, ops) ensures StoredAs(Run(r, db, ops).rumours, n.rumourId, StatusOf(n)) {
        if n in Nudges(r, db, before) {
          AfterKeepsResolved(r, Run(r, db, before), op, n.rumourId, StatusOf(n));
        } else {
          NudgeIs(r, Run(r, db, before), op);
        }
      }
    }
  }

  /** Over every history, whatever store calls fail, a rumour moves source scores at most once. */
  lemma {:induction false} NudgedAtMostOnce(r: Roster, db: Db, ops: seq<Op>)
    requires Loaded(r) && ValidDb(db)
    ensures forall i, j :: 0 <= i < j < |Nudges(r, db, ops)| ==>
      Nudges(r, db, ops)[i].rumourId != Nudges(r, db, ops)[j].rumourId
  {
    hide ValidDb, Loaded, After, StoredAs, NudgeOf, Run;
    if ops != [] {
      var before, op := ops[..|ops| - 1], ops[|ops| - 1];
      NudgedAtMostOnce(r, db, before);
      RunValid(r, db, before);
      NudgedStayResolved(r, db, before);
      if NudgeOf(r, Run(r, db, before), op) != [] {
        NudgeIs(r, Run(r, db, before), op);
      }
    }
  }

  // ---------- exactly once, unless the resolving report fails before the nudge ----------

  /** The operation gets as far as a nudge: the rumour's upsert and the event's insertion report no
      error once they took effect, and the nudge takes effect. */
  ghost predicate ReachesNudge(db: Db, op: Op) {
    op.SyncRoster? ||
    (op.faults.upsert != FailsAfter && op.faults.event == Works && op.faults.nudge != FailsBefore
     && op.rep.sourceId in db.scores)
  }

  /** An operation that resolves a rumour nudges for it exactly when it reaches the nudge. */
  lemma {:induction false} ResolvingNudges(r: Roster, db: Db, op: Op, id: nat)
    requires ValidDb(db)
    requires !Resolved(db.rumours, id) && Resolved(After(r, db, op).rumours, id)
    ensures NudgeOf(r, db, op) != [] <==> ReachesNudge(db, op)
    ensures NudgeOf(r, db, op) != [] ==> NudgeOf(r, db, op)[0].rumourId == id
  {
    hide ValidTables, ValidPlayers, ValidEvents, References, NamesStored, Resolve, SourcesOn, ScoresNudged, EventInserted;
    hide Synced, UpsertRow, RowOf, JustResolved, Resolved;
    ResolveValid(r, db, op.rep, op.faults);
    var (db', p) := Resolve(r, db, op.rep, op.faults);
    UpsertResolves(db'.rumours, p.value, id);
  }

  /** Such an operation reports success exactly when none of its last calls reports an error. */
  lemma {:induction false} ResolvingResult(r: Roster, db: Db, rep: Report, f: Faults, id: nat)
    requires ValidDb(db)
    requires !Resolved(db.rumours, id) && Resolved(Upsert(r, db, rep, f).db.rumours, id)
    ensures Upsert(r, db, rep, f).result ==
      if f.upsert == f.event == f.nudge == Works && rep.sourceId in db.scores then Stored(id) else ErrStore
  {
    hide ValidTables, ValidPlayers, ValidEvents, References, NamesStored, Resolve, SourcesOn, ScoresNudged, EventInserted;
    hide UpsertRow, RowOf, JustResolved, Resolved;
    ResolveValid(r, db, rep, f);
    var (db', p) := Resolve(r, db, rep, f);
    UpsertResolves(db'.rumours, p.value, id);
  }

  lemma {:induction false} UpsertResolves(t: RumourTable, p: Params, id: nat)
    requires !Resolved(t, id) && Resolved(UpsertRow(t, p), id)
    ensures JustResolved(t, p) && RowOf(t, p).id == id
  {
    hide Updated, Inserted;
    UpdateKeepsId(t, p);
    var t' := UpsertRow(t, p);
    var i :| 0 <= i < |t'.rows| && t'.rows[i].id == id && t'.rows[i].status.IsTerminal();
    var k := RumourIndex(t.rows, p.key);
    if i != k {
      assert t'.rows[i] == t.rows[i];
    }
  }

  /** While every operation reaches its nudge, the rumours nudged for (once, by NudgedAtMostOnce) are
      exactly the rumours resolved, whatever else fails. */
  lemma {:induction false} ResolvedWereNudged(r: Roster, db: Db, ops: seq<Op>, id: nat)
    requires Loaded(r) && ValidDb(db) && !Resolved(db.rumours, id)
    requires forall op :: op in ops ==> ReachesNudge(db, op)
    ensures Resolved(Run(r, db, ops).rumours, id) <==> exists n :: n in Nudges(r, db, ops) && n.rumourId == id
  {
    hide ValidDb, Loaded, After, StoredAs, NudgeOf, Resolved;
    if ops != [] {
      var before, op := ops[..|ops| - 1], ops[|ops| - 1];
      ResolvedWereNudged(r, db, before, id);
      RunValid(r, db, before);
      var mid := Run(r, db, before);
      if Resolved(Run(r, db, ops).rumours, id) && !Resolved(mid.rumours, id) {
        assert op in ops && ReachesNudge(db, op);
        assert op.Deliver? ==> op.rep.sourceId in mid.scores.Keys;
        ResolvingNudges(r, mid, op, id);
      }
      ResolvedByNudges(r, db, ops, id);
    }
  }

  lemma {:induction false} ResolvedNotNudgedAgain(r: Roster, db: Db, ops: seq<Op>, id: nat)
    requires Loaded(r) && ValidDb(db) && Resolved(db.rumours, id)
    ensures Resolved(Run(r, db, ops).rumours, id)
    ensures forall n :: n in Nudges(r, db, ops) ==> n.rumourId != id
  {
    hide ValidDb, Loaded, After, StoredAs, NudgeOf;
    if ops != [] {
      var before, op := ops[..|ops| - 1], ops[|ops| - 1];
      ResolvedNotNudgedAgain(r, db, before, id);
      RunValid(r, db, before);
      var mid := Run(r, db, before);
      AfterKeepsResolved(r, mid, op, id, if StoredAs(mid.rumours, id, Confirmed) then Confirmed else Collapsed);
      if NudgeOf(r, mid, op) != [] {
        NudgeIs(r, mid, op);
      }
    }
  }

  lemma {:induction false} FirstOperation(r: Roster, db: Db, op: Op, later: seq<Op>)
    ensures Run(r, db, [op] + later) == Run(r, After(r, db, op), later)
    ensures Nudges(r, db, [op] + later) == NudgeOf(r, db, op) + Nudges(r, After(r, db, op), later)
  {
    hide After, NudgeOf;
    if later == [] {
      assert [op] + later == [op] && [op][..0] == [];
      assert Run(r, db, []) == db && Nudges(r, db, []) == [];
    } else {
      var n := |later| - 1;
      assert ([op] + later)[..n + 1] == [op] + later[..n];
      FirstOperation(r, db, op, later[..n]);
    }
  }

  /** A rumour whose resolving report fails between the upsert and the nudge is never nudged for: later
      reports find it resolved already. Otherwise it is. */
  lemma {:induction false} NudgedIffReached(r: Roster, db: Db, op: Op, later: seq<Op>, id: nat)
    requires Loaded(r) && ValidDb(db)
    requires !Resolved(db.rumours, id) && Resolved(After(r, db, op).rumours, id)
    ensures (exists n :: n in Nudges(r, db, [op] + later) && n.rumourId == id) <==> ReachesNudge(db, op)
  {
    hide ValidDb, Loaded, After, StoredAs, Resolved, NudgeOf, Run, Nudges, ReachesNudge;
    FirstOperation(r, db, op, later);
    AfterValid(r, db, op);
    ResolvedNotNudgedAgain(r, After(r, db, op), later, id);
    ResolvingNudges(r, db, op, id);
    var first := NudgeOf(r, db, op);
    if first != [] {
      assert first[0] in Nudges(r, db, [op] + later);
      NudgeIs(r, db, op);
    }
  }

  /** A report of one transfer, confirmed at once. */
  function Confirmation(): Report {
    Report(0, 0, "A", None, "B", Confirmed, None, None, "", 1.0, "summer")
  }

  lemma {:induction false} ConfirmationResolves(r: Roster, db: Db, f: Faults)
    requires db == NewDb(Tables([], [], 0, 0), map[0 := 50.0]) && f == NO_FAULTS.(event := FailsBefore)
    ensures Resolved(After(r, db, Deliver(Confirmation(), f)).rumours, 0)
  {
    hide GetOrCreate, GetOrCreatePlayer, UpsertRow, RowOf, JustResolved, SourcesOn;
    var rep := Confirmation();
    var p := Resolve(r, db, rep, f).1.value;
    assert p.status == Confirmed;
    FirstRumour(p);
  }

  lemma {:induction false} FirstRumour(p: Params)
    ensures UpsertRow(RumourTable([], 0), p).rows == [Inserted(0, p)]
    ensures p.status.IsTerminal() ==> Resolved(UpsertRow(RumourTable([], 0), p), 0)
  {
    var rows := UpsertRow(RumourTable([], 0), p).rows;
    assert rows[0].id == 0 && rows[0].status == p.status;
  }

  /** The nudge can be lost: the first report of a transfer confirms it, its event cannot be stored, and
      whatever comes later no score is ever moved for the rumour. */
  lemma {:induction false} NudgeLost(r: Roster) returns (db: Db, op: Op)
    requires Loaded(r)
    ensures ValidDb(db) && op == Deliver(Confirmation(), NO_FAULTS.(event := FailsBefore))
    ensures !Resolved(db.rumours, 0) && Resolved(After(r, db, op).rumours, 0)
    ensures forall later, n :: n in Nudges(r, db, [op] + later) ==> n.rumourId != 0
  {
    hide ValidTables, Loaded, After, Nudges;
    var tables := Tables([], [], 0, 0);
    assert ValidTables(tables) by { EmptyTablesValid(); }
    var scores := map[0 := 50.0];
    NewDbValid(tables, scores);
    db := NewDb(tables, scores);
    op := Deliver(Confirmation(), NO_FAULTS.(event := FailsBefore));
    ConfirmationResolves(r, db, op.faults);
    forall later, n | n in Nudges(r, db, [op] + later) ensures n.rumourId != 0 {
      NudgedIffReached(r, db, op, later, 0);
    }
  }

  lemma {:induction false} EmptyTablesValid()
    ensures ValidTables(Tables([], [], 0, 0))
  {
  }

  lemma {:induction false} ResolvedByNudges(r: Roster, db: Db, ops: seq<Op>, id: nat)
    requires Loaded(r) && ValidDb(db)
    ensures (exists n :: n in Nudges(r, db, ops) && n.rumourId == id) ==> Resolved(Run(r, db, ops).rumours, id)
  {
    hide ValidDb, Loaded, After, StoredAs, NudgeOf, Run, Nudges;
    NudgedStayResolved(r, db, ops);
  }

  // ---------- scores ----------

  /** A source's score after some nudges. */
  function ScoreAfter(start: real, source: nat, ns: seq<Nudge>): real {
    if ns == [] then start
    else
      var score := ScoreAfter(start, source, ns[..|ns| - 1]);
      var n := ns[|ns| - 1];
      if source in n.sources then Clamp(score + Delta(n)) else score
  }

  function CountFor(source: nat, ns: seq<Nudge>, confirmed: bool): nat {
    if ns == [] then 0
    else
      CountFor(source, ns[..|ns| - 1], confirmed)
      + (if source in ns[|ns| - 1].sources && ns[|ns| - 1].confirmed == confirmed then 1 else 0)
  }

  /** Every score in a history is the fold of its nudges. */
  lemma {:induction false} ScoresAreNudges(r: Roster, db: Db, ops: seq<Op>, source: nat)
    requires Loaded(r) && ValidDb(db) && source in db.scores
    ensures source in Run(r, db, ops).scores
    ensures Run(r, db, ops).scores[source] == ScoreAfter(db.scores[source], source, Nudges(r, db, ops))
  {
    hide ValidDb, Loaded, After, NudgeOf, Clamp;
    if ops != [] {
      var before, op := ops[..|ops| - 1], ops[|ops| - 1];
      ScoresAreNudges(r, db, before, source);
      RunValid(r, db, before);
      var mid := Run(r, db, before);
      if NudgeOf(r, mid, op) == [] {
        NoNudgeNoMove(r, mid, op);
        assert Nudges(r, db, before) + [] == Nudges(r, db, before);
      } else {
        NudgeIs(r, mid, op);
        var all := Nudges(r, db, before) + NudgeOf(r, mid, op);
        assert all[..|all| - 1] == Nudges(r, db, before);
      }
    }
  }

  /** No nudge of the source asks for a score outside [0, 100]. */
  ghost predicate NeverBeyondBounds(start: real, source: nat, ns: seq<Nudge>) {
    forall k :: 0 <= k < |ns| && source in ns[k].sources ==>
      0.0 <= ScoreAfter(start, source, ns[..k]) + Delta(ns[k]) <= 100.0
  }

  lemma {:induction false} ScoreClosedForm(start: real, source: nat, ns: seq<Nudge>)
    requires NeverBeyondBounds(start, source, ns)
    ensures ScoreAfter(start, source, ns) ==
      start + 2.0 * (CountFor(source, ns, true) as real) - 2.0 * (CountFor(source, ns, false) as real)
  {
    if ns != [] {
      var k := |ns| - 1;
      forall j | 0 <= j < k && source in ns[..k][j].sources
        ensures 0.0 <= ScoreAfter(start, source, ns[..k][..j]) + Delta(ns[..k][j]) <= 100.0
      {
        assert ns[..k][..j] == ns[..j];
      }
      ScoreClosedForm(start, source, ns[..k]);
    }
  }

  /** A score whose moves never meet a bound is its start plus two for every confirmed and minus two
      for every collapsed rumour the source had reported on when it resolved. */
  lemma {:induction false} SourceScoreClosedForm(r: Roster, db: Db, ops: seq<Op>, source: nat)
    requires Loaded(r) && ValidDb(db) && source in db.scores
    requires NeverBeyondBounds(db.scores[source], source, Nudges(r, db, ops))
    ensures source in Run(r, db, ops).scores
    ensures
      var ns := Nudges(r, db, ops);
      Run(r, db, ops).scores[source] ==
        db.scores[source] + 2.0 * (CountFor(source, ns, true) as real) - 2.0 * (CountFor(source, ns, false) as real)
  {
    hide ValidDb, Loaded, Run, Nudges, ScoreAfter;
    ScoresAreNudges(r, db, ops, source);
    ScoreClosedForm(db.scores[source], source, Nudges(r, db, ops));
  }

  /** Scores stay in [0, 100]. */
  lemma {:induction false} ScoresStayInRange(r: Roster, db: Db, ops: seq<Op>, source: nat)
    requires Loaded(r) && ValidDb(db) && source in db.scores
    ensures source in Run(r, db, ops).scores && 0.0 <= Run(r, db, ops).scores[source] <= 100.0
  {
    hide Run, Loaded;
    RunValid(r, db, ops);
  }
}

/** The store's players, rumours, events and sources, and the clusterer that updates them step by
    step (internal/store/rumours.go, internal/store/players.go, internal/cluster/cluster.go). A store
    call is told how it ends this time: it works, or it reports an error before or after it took effect. */
module RumourStore {
  import opened Wrappers
  import opened Text
  import opened RosterLookup
  import opened ClubTables
  import opened RosterStatements
  import opened RosterSync
  import opened Rumours
  import opened Clustering

  class Store {
    const clubStore: ClubStore
    var players: PlayerTable
    var rumours: seq<Rumour>
    var nextRumour: nat
    var events: seq<Event>
    var scores: map<nat, real>

    function State(): Db
      reads this, clubStore
    {
      Db(clubStore.State(), players, RumourTable(rumours, nextRumour), events, scores)
    }

    /** The constraints of every table hold. */
    ghost predicate Valid()
      reads this, clubStore
    {
      clubStore.Valid() && ValidDb(State())
    }

    constructor (clubStore: ClubStore, scores: map<nat, real>)
      requires clubStore.Valid() && ScoresInRange(scores)
      ensures Valid() && this.clubStore == clubStore
      ensures State() == Db(clubStore.State(), PlayerTable([], 0), RumourTable([], 0), [], scores)
    {
      hide ValidTables, ValidPlayers, ValidRumours, ValidEvents, ScoresInRange, References;
      this.clubStore := clubStore;
      players := PlayerTable([], 0);
      rumours, nextRumour, events := [], 0, [];
      this.scores := scores;
      NewDbValid(clubStore.State(), scores);
    }

    method GetOrCreatePlayer(name: string, call: Call) returns (ok: bool, id: nat)
      modifies `players
      ensures ok == (call == Works)
      ensures
        if call == FailsBefore then players == old(players)
        else (players, id) == Clustering.GetOrCreatePlayer(old(players), name)
    {
      ok, id := call == Works, 0;
      if call == FailsBefore {
        return;
      }
      var trimmed := TrimSpace(name);
      var i := PlayerIndex(players.rows, Lower(trimmed));
      if i < |players.rows| {
        id := players.rows[i].id;
      } else {
        id := players.next;
        players := PlayerTable(players.rows + [PlayerRow(id, trimmed)], players.next + 1);
      }
    }

    /** Read the existing row, decide the status, then insert or update. */
    method UpsertRumour(p: Params, call: Call) returns (ok: bool, rumour: Rumour, justResolved: bool)
      modifies `rumours, `nextRumour
      ensures ok == (call == Works)
      ensures
        var before := RumourTable(old(rumours), old(nextRumour));
        var after := RumourTable(rumours, nextRumour);
        if call == FailsBefore then after == before
        else after == UpsertRow(before, p) && rumour == RowOf(before, p) && justResolved == JustResolved(before, p)
    {
      ok, justResolved := call == Works, false;
      rumour := Inserted(nextRumour, p);
      if call == FailsBefore {
        return;
      }
      var finalStatus := p.status;
      var wasTerminal := false;
      var i := RumourIndex(rumours, p.key);
      if i < |rumours| {
        var existing := rumours[i];
        wasTerminal := existing.status.IsTerminal();
        if !existing.status.IsForwardTransition(p.status) {
          finalStatus := existing.status;
        }
        rumour := existing.(
          fromClub := if p.fromClub.Some? then p.fromClub else existing.fromClub,
          status := finalStatus,
          feeMin := Least(existing.feeMin, p.feeMin),
          feeMax := Greatest(existing.feeMax, p.feeMax),
          summary := p.summary,
          confidence := p.confidence);
        rumours := rumours[i := rumour];
      } else {
        rumours := rumours + [rumour];
        nextRumour := nextRumour + 1;
      }
      justResolved := !wasTerminal && rumour.status.IsTerminal();
    }

    /** Append a timeline event unless the article already has one on the rumour. An event of an unknown
        source breaks its foreign key. */
    method InsertRumourEvent(e: Event, call: Call) returns (ok: bool)
      modifies `events
      ensures ok == (call == Works && e.sourceId in scores)
      ensures events ==
        if call == FailsBefore || e.sourceId !in scores then old(events) else EventInserted(old(events), e)
    {
      ok := call == Works && e.sourceId in scores;
      if call != FailsBefore && e.sourceId in scores && !HasEvent(events, e.rumourId, e.articleId) {
        events := events + [e];
      }
    }

    /** Move the score of every source with an event on the rumour, within [0, 100]. */
    method NudgeSourceReliability(rumourId: nat, delta: real, call: Call) returns (ok: bool)
      modifies `scores
      ensures ok == (call == Works)
      ensures scores ==
        if call == FailsBefore then old(scores)
        else
          map s | s in old(scores) ::
            if s in SourcesOn(events, rumourId) then Clamp(old(scores)[s] + delta) else old(scores)[s]
    {
      ok := call == Works;
      if call != FailsBefore {
        var reporting := SourcesOn(events, rumourId);
        scores := map s | s in scores :: if s in reporting then Clamp(scores[s] + delta) else scores[s];
      }
    }
  }

  class Clusterer {
    const store: Store

    constructor (store: Store)
      ensures this.store == store
    {
      this.store := store;
    }

    /** Resolve the names, one store call after the other. */
    method ResolveNames(rep: Report, f: Faults) returns (p: Option<Params>)
      requires store.Valid()
      modifies store, store.clubStore
      ensures store.Valid()
      ensures (store.State(), p) == Resolve(store.clubStore.roster, old(store.State()), rep, f)
      ensures p.Some? ==> NamesStored(store.players, store.clubStore.State(), p.value.key, p.value.fromClub)
    {
      hide Loaded, ValidTables, ValidRumours, ValidEvents, ValidPlayers, References, NamesStored;
      hide GetOrCreate, Clustering.GetOrCreatePlayer;
      ResolveValid(store.clubStore.roster, store.State(), rep, f);
      var ok, player := store.GetOrCreatePlayer(rep.player, f.player);
      if !ok {
        return None;
      }
      if f.toClub == FailsBefore {
        return None;
      }
      var toClub := store.clubStore.GetOrCreateClub(rep.toClub);
      if f.toClub != Works {
        return None;
      }
      var fromClub := None;
      if rep.fromClub.Some? && rep.fromClub.value != "" {
        if f.fromClub == FailsBefore {
          return None;
        }
        var id := store.clubStore.GetOrCreateClub(rep.fromClub.value);
        if f.fromClub != Works {
          return None;
        }
        fromClub := Some(id);
      }
      return Some(ParamsFor(rep, player, toClub, fromClub));
    }

    /** Store the report once its names are resolved. */
    method StoreResolved(p: Params, rep: Report, f: Faults) returns (result: UpsertResult, ghost nudge: Option<Nudge>)
      requires store.Valid() && NamesStored(store.players, store.clubStore.State(), p.key, p.fromClub)
      modifies store
      ensures store.Valid()
      ensures Step(store.State(), result, nudge) == StoreReport(old(store.State()), p, rep, f)
    {
      hide Loaded, ValidTables, ValidRumours, ValidEvents, ValidPlayers, UpsertRow, RowOf, JustResolved, SourcesOn, Clamp;
      hide EventInserted, References, NamesStored;
      nudge := None;
      StoreValid(store.State(), p, rep, f);
      var ok, rumour, justResolved := store.UpsertRumour(p, f.upsert);
      if !ok {
        return ErrStore, None;
      }
      ok := store.InsertRumourEvent(EventFor(rep, p, rumour.id), f.event);
      if !ok {
        return ErrStore, None;
      }
      if justResolved {
        var delta := RELIABILITY_NUDGE;
        if rumour.status == Collapsed {
          delta := -RELIABILITY_NUDGE;
        }
        ghost var reporting := SourcesOn(store.events, rumour.id);
        ok := store.NudgeSourceReliability(rumour.id, delta, f.nudge);
        nudge := if f.nudge == FailsBefore then None else Some(Nudge(rumour.id, rumour.status != Collapsed, reporting));
        assert store.State() == StoreReport(old(store.State()), p, rep, f).db;
        if !ok {
          return ErrStore, nudge;
        }
      }
      return Stored(rumour.id), nudge;
    }

    /** Clusterer.Upsert, with the store calls that fail this time. */
    method UpsertReport(rep: Report, f: Faults) returns (result: UpsertResult, ghost nudge: Option<Nudge>)
      requires store.Valid()
      modifies store, store.clubStore
      ensures store.Valid()
      ensures Step(store.State(), result, nudge) == Upsert(store.clubStore.roster, old(store.State()), rep, f)
    {
      hide Resolve, StoreReport, ValidDb, Loaded, NamesStored;
      if rep.player == "" || rep.toClub == "" {
        return ErrIncomplete, None;
      }
      var p := ResolveNames(rep, f);
      if p.None? {
        return ErrStore, None;
      }
      result, nudge := StoreResolved(p.value, rep, f);
    }
  }
}

/** The rumours table: what one report does to its rumour, and what a whole history of
    reports adds up to (internal/models/models.go, UpsertRumour in internal/store/rumours.go). */
module Rumours {
  import opened Wrappers

  // ---------- status ----------

  datatype Status = Rumoured | Talks | Advanced | Medical | Confirmed | Collapsed {
    predicate IsTerminal() {
      this == Confirmed || this == Collapsed
    }

    /** Moving to next is progress, or resolves the rumour. */
    predicate IsForwardTransition(next: Status) {
      if IsTerminal() then false
      else if next.IsTerminal() then true
      else next in STATUS_RANK && this in STATUS_RANK && STATUS_RANK[next] >= STATUS_RANK[this]
    }
  }

  const STATUS_RANK: map<Status, int> := map[Rumoured := 0, Talks := 1, Advanced := 2, Medical := 3]

  function Rank(s: Status): int {
    match s
    case Rumoured => 0
    case Talks => 1
    case Advanced => 2
    case Medical => 3
    case Confirmed => 4
    case Collapsed => 4
  }

  lemma {:induction false} ForwardIs(s: Status, next: Status)
    ensures s.IsForwardTransition(next) <==> !s.IsTerminal() && (next.IsTerminal() || Rank(next) >= Rank(s))
  {
  }

  /** The statuses of an unresolved rumour, in order. */
  const PROGRESS := [Rumoured, Talks, Advanced, Medical]

  /** A status moves forward along this order, or to one of the two that resolve the rumour, and from
      those nowhere. */
  lemma {:induction false} ProgressIs(i: nat, j: nat, next: Status)
    requires i < 4 && j < 4
    ensures PROGRESS[i].IsForwardTransition(PROGRESS[j]) <==> i <= j
    ensures PROGRESS[i].IsForwardTransition(Confirmed) && PROGRESS[i].IsForwardTransition(Collapsed)
    ensures !Confirmed.IsForwardTransition(next) && !Collapsed.IsForwardTransition(next)
    ensures Rank(PROGRESS[i]) < Rank(PROGRESS[j]) <==> i < j
    ensures Rank(PROGRESS[i]) < Rank(Confirmed) == Rank(Collapsed)
  {
  }

  // ---------- rows ----------

  /** The unique key of the table. */
  datatype Key = Key(player: nat, toClub: nat, window: string)

  /** A rumours row; fees are in cents. */
  datatype Rumour = Rumour(
    id: nat, key: Key, fromClub: Option<nat>, status: Status,
    feeMin: Option<int>, feeMax: Option<int>, summary: Option<string>, confidence: real)

  /** What one report asks UpsertRumour to store. */
  datatype Params = Params(
    key: Key, fromClub: Option<nat>, status: Status,
    feeMin: Option<int>, feeMax: Option<int>, summary: Option<string>, confidence: real)

  /** LEAST, which ignores NULL. */
  function Least(a: Option<int>, b: Option<int>): Option<int> {
    if a.None? then b else if b.None? then a else if a.value <= b.value then a else b
  }

  /** GREATEST, which ignores NULL. */
  function Greatest(a: Option<int>, b: Option<int>): Option<int> {
    if a.None? then b else if b.None? then a else if a.value >= b.value then a else b
  }

  function Inserted(id: nat, p: Params): Rumour {
    Rumour(id, p.key, p.fromClub, p.status, p.feeMin, p.feeMax, p.summary, p.confidence)
  }

  function Updated(row: Rumour, p: Params): Rumour {
    row.(
      fromClub := if p.fromClub.Some? then p.fromClub else row.fromClub,
      status := if row.status.IsForwardTransition(p.status) then p.status else row.status,
      feeMin := Least(row.feeMin, p.feeMin),
      feeMax := Greatest(row.feeMax, p.feeMax),
      summary := p.summary,
      confidence := p.confidence)
  }

  function RumourIndex(rumours: seq<Rumour>, key: Key): (i: nat)
    ensures i <= |rumours|
    ensures i < |rumours| ==> rumours[i].key == key
    ensures forall j :: 0 <= j < i ==> rumours[j].key != key
  {
    if rumours == [] then 0
    else if rumours[0].key == key then 0
    else 1 + RumourIndex(rumours[1..], key)
  }

  /** The rumours table and the next id. */
  datatype RumourTable = RumourTable(rows: seq<Rumour>, next: nat)

  ghost predicate ValidRumours(t: RumourTable) {
    && (forall i :: 0 <= i < |t.rows| ==> t.rows[i].id < t.next)
    && (forall i, j :: 0 <= i < j < |t.rows| ==> t.rows[i].id != t.rows[j].id)
    && (forall i, j :: 0 <= i < j < |t.rows| ==> t.rows[i].key != t.rows[j].key)
  }

  /** UpsertRumour: the new table. */
  function UpsertRow(t: RumourTable, p: Params): RumourTable {
    var i := RumourIndex(t.rows, p.key);
    if i < |t.rows| then t.(rows := t.rows[i := Updated(t.rows[i], p)])
    else RumourTable(t.rows + [Inserted(t.next, p)], t.next + 1)
  }

  /** UpsertRumour: the row it returns. */
  function RowOf(t: RumourTable, p: Params): Rumour {
    var i := RumourIndex(t.rows, p.key);
    if i < |t.rows| then Updated(t.rows[i], p) else Inserted(t.next, p)
  }

  /** UpsertRumour: this call moved the rumour into a terminal status. */
  predicate JustResolved(t: RumourTable, p: Params) {
    var i := RumourIndex(t.rows, p.key);
    !(i < |t.rows| && t.rows[i].status.IsTerminal()) && RowOf(t, p).status.IsTerminal()
  }

  function UpsertAll(t: RumourTable, ps: seq<Params>): RumourTable {
    if ps == [] then t else UpsertRow(UpsertAll(t, ps[..|ps| - 1]), ps[|ps| - 1])
  }

  lemma {:induction false} UpsertRowValid(t: RumourTable, p: Params)
    requires ValidRumours(t)
    ensures ValidRumours(UpsertRow(t, p))
  {
  }

  // ---------- closed forms ----------

  /** The reports of a history for one key, in order. */
  function ForKey(ps: seq<Params>, key: Key): seq<Params> {
    if ps == [] then []
    else ForKey(ps[..|ps| - 1], key) + (if ps[|ps| - 1].key == key then [ps[|ps| - 1]] else [])
  }

  /** The first terminal status reported if there is one, otherwise the highest-ranked one. */
  ghost predicate IsFinalStatus(ps: seq<Params>, s: Status) {
    if exists i :: 0 <= i < |ps| && ps[i].status.IsTerminal() then
      exists i :: 0 <= i < |ps| && ps[i].status == s && s.IsTerminal() &&
        forall j :: 0 <= j < i ==> !ps[j].status.IsTerminal()
    else
      (exists i :: 0 <= i < |ps| && ps[i].status == s) && forall i :: 0 <= i < |ps| ==> Rank(ps[i].status) <= Rank(s)
  }

  /** The least figure reported, none exactly when none was. */
  ghost predicate IsLeastFee(ps: seq<Params>, fee: Option<int>) {
    match fee
    case None => forall i :: 0 <= i < |ps| ==> ps[i].feeMin.None?
    case Some(v) =>
      (exists i :: 0 <= i < |ps| && ps[i].feeMin == Some(v))
      && forall i :: 0 <= i < |ps| && ps[i].feeMin.Some? ==> v <= ps[i].feeMin.value
  }

  /** The greatest figure reported, none exactly when none was. */
  ghost predicate IsGreatestFee(ps: seq<Params>, fee: Option<int>) {
    match fee
    case None => forall i :: 0 <= i < |ps| ==> ps[i].feeMax.None?
    case Some(v) =>
      (exists i :: 0 <= i < |ps| && ps[i].feeMax == Some(v))
      && forall i :: 0 <= i < |ps| && ps[i].feeMax.Some? ==> ps[i].feeMax.value <= v
  }

  /** The last selling club named, if any report named one. */
  ghost predicate IsLastFromClub(ps: seq<Params>, club: Option<nat>) {
    match club
    case None => forall i :: 0 <= i < |ps| ==> ps[i].fromClub.None?
    case Some(c) =>
      exists i :: 0 <= i < |ps| && ps[i].fromClub == Some(c) && forall j :: i < j < |ps| ==> ps[j].fromClub.None?
  }

  /** The row is what a non-empty history of reports for its key adds up to. */
  ghost predicate Summarises(row: Rumour, ps: seq<Params>) {
    && ps != []
    && IsFinalStatus(ps, row.status)
    && IsLeastFee(ps, row.feeMin)
    && IsGreatestFee(ps, row.feeMax)
    && IsLastFromClub(ps, row.fromClub)
    && row.summary == ps[|ps| - 1].summary
    && row.confidence == ps[|ps| - 1].confidence
  }

  lemma {:induction false} StatusStep(ps: seq<Params>, s: Status, p: Params)
    requires IsFinalStatus(ps, s)
    ensures IsFinalStatus(ps + [p], if s.IsForwardTransition(p.status) then p.status else s)
  {
    var ps' := ps + [p];
    ForwardIs(s, p.status);
    assert ps'[|ps|] == p;
    if i :| 0 <= i < |ps| && ps[i].status.IsTerminal() {
      var k :| 0 <= k < |ps| && ps[k].status == s && s.IsTerminal() && forall j :: 0 <= j < k ==> !ps[j].status.IsTerminal();
      assert ps'[k].status == s && ps'[k].status.IsTerminal();
    } else {
      var k :| 0 <= k < |ps| && ps[k].status == s;
      assert ps'[k].status == s && !s.IsTerminal();
    }
  }

  lemma {:induction false} LeastFeeStep(ps: seq<Params>, fee: Option<int>, p: Params)
    requires IsLeastFee(ps, fee)
    ensures IsLeastFee(ps + [p], Least(fee, p.feeMin))
  {
    var ps' := ps + [p];
    assert ps'[|ps|] == p;
    if fee.Some? {
      var i :| 0 <= i < |ps| && ps[i].feeMin == fee;
      assert ps'[i].feeMin == fee;
    }
  }

  lemma {:induction false} GreatestFeeStep(ps: seq<Params>, fee: Option<int>, p: Params)
    requires IsGreatestFee(ps, fee)
    ensures IsGreatestFee(ps + [p], Greatest(fee, p.feeMax))
  {
    var ps' := ps + [p];
    assert ps'[|ps|] == p;
    if fee.Some? {
      var i :| 0 <= i < |ps| && ps[i].feeMax == fee;
      assert ps'[i].feeMax == fee;
    }
  }

  lemma {:induction false} FromClubStep(ps: seq<Params>, club: Option<nat>, p: Params)
    requires IsLastFromClub(ps, club)
    ensures IsLastFromClub(ps + [p], if p.fromClub.Some? then p.fromClub else club)
  {
    var ps' := ps + [p];
    assert ps'[|ps|] == p;
    if club.Some? {
      var i :| 0 <= i < |ps| && ps[i].fromClub == club && forall j :: i < j < |ps| ==> ps[j].fromClub.None?;
      assert ps'[i].fromClub == club;
    }
  }

  lemma {:induction false} SummaryStep(row: Rumour, ps: seq<Params>, p: Params)
    requires Summarises(row, ps)
    ensures Summarises(Updated(row, p), ps + [p])
  {
    hide IsFinalStatus, IsLeastFee, IsGreatestFee, IsLastFromClub;
    StatusStep(ps, row.status, p);
    LeastFeeStep(ps, row.feeMin, p);
    GreatestFeeStep(ps, row.feeMax, p);
    FromClubStep(ps, row.fromClub, p);
  }

  lemma {:induction false} SummaryStart(id: nat, p: Params)
    ensures Summarises(Inserted(id, p), [p])
  {
    assert [p][0] == p;
  }

  /** After any history, whatever else it reports on, a key has a row exactly when some report named
      it, and that row is the closed form of its own reports. */
  lemma {:induction false} HistoryClosedForm(ps: seq<Params>, key: Key)
    ensures
      var t := UpsertAll(RumourTable([], 0), ps);
      var i := RumourIndex(t.rows, key);
      && ValidRumours(t)
      && (i < |t.rows| <==> ForKey(ps, key) != [])
      && (i < |t.rows| ==> Summarises(t.rows[i], ForKey(ps, key)))
  {
    hide Summarises, Updated, Inserted;
    if ps != [] {
      var before, p := ps[..|ps| - 1], ps[|ps| - 1];
      HistoryClosedForm(before, key);
      var t := UpsertAll(RumourTable([], 0), before);
      UpsertRowValid(t, p);
      RowAt(t, p, key);
      var i := RumourIndex(t.rows, key);
      if p.key == key {
        if i < |t.rows| {
          SummaryStep(t.rows[i], ForKey(before, key), p);
        } else {
          SummaryStart(t.next, p);
          assert ForKey(ps, key) == [p];
        }
      } else {
        assert ForKey(ps, key) == ForKey(before, key);
      }
    }
  }

  /** What an upsert does to the row of a key. */
  lemma {:induction false} RowAt(t: RumourTable, p: Params, key: Key)
    ensures
      var t' := UpsertRow(t, p);
      var i, i' := RumourIndex(t.rows, key), RumourIndex(t'.rows, key);
      && (i' < |t'.rows| <==> i < |t.rows| || p.key == key)
      && (i' < |t'.rows| ==> t'.rows[i'] == if p.key == key then RowOf(t, p) else t.rows[i])
      && (i < |t.rows| ==> i' == i)
  {
    var t' := UpsertRow(t, p);
    var i, i' := RumourIndex(t.rows, key), RumourIndex(t'.rows, key);
    assert forall j :: 0 <= j < |t.rows| ==> t'.rows[j].key == t.rows[j].key;
    if i < |t.rows| {
      assert t'.rows[i].key == key;
    } else if p.key == key {
      assert t'.rows[|t.rows|].key == key;
    }
  }

  // ---------- consequences of the closed form ----------

  /** The closed form of a status is unique. */
  lemma {:induction false} FinalStatusUnique(ps: seq<Params>, s: Status, s': Status)
    requires IsFinalStatus(ps, s) && IsFinalStatus(ps, s')
    ensures s == s'
  {
    if i :| 0 <= i < |ps| && ps[i].status.IsTerminal() {
      var k :| 0 <= k < |ps| && ps[k].status == s && s.IsTerminal() && forall j :: 0 <= j < k ==> !ps[j].status.IsTerminal();
      var k' :| 0 <= k' < |ps| && ps[k'].status == s' && s'.IsTerminal() && forall j :: 0 <= j < k' ==> !ps[j].status.IsTerminal();
      assert !(k < k') && !(k' < k);
    } else {
      var k :| 0 <= k < |ps| && ps[k].status == s;
      var k' :| 0 <= k' < |ps| && ps[k'].status == s';
      assert Rank(s) == Rank(s') && !s.IsTerminal() && !s'.IsTerminal();
    }
  }

  /** Without a terminal report the order of the reports does not matter to the status. */
  lemma {:induction false} StatusIgnoresOrder(ps: seq<Params>, qs: seq<Params>, s: Status)
    requires multiset(ps) == multiset(qs) && IsFinalStatus(ps, s) && !s.IsTerminal()
    ensures IsFinalStatus(qs, s)
  {
    forall i | 0 <= i < |qs| ensures !qs[i].status.IsTerminal() && Rank(qs[i].status) <= Rank(s) {
      assert qs[i] in multiset(ps);
      var j :| 0 <= j < |ps| && ps[j] == qs[i];
    }
    var k :| 0 <= k < |ps| && ps[k].status == s;
    assert ps[k] in multiset(qs);
    var j :| 0 <= j < |qs| && qs[j] == ps[k];
    assert qs[j].status == s;
  }

  /** The order of the reports never matters to the fee range. */
  lemma {:induction false} FeesIgnoreOrder(ps: seq<Params>, qs: seq<Params>, min: Option<int>, max: Option<int>)
    requires multiset(ps) == multiset(qs) && IsLeastFee(ps, min) && IsGreatestFee(ps, max)
    ensures IsLeastFee(qs, min) && IsGreatestFee(qs, max)
  {
    forall i | 0 <= i < |qs| ensures qs[i] in ps {
      assert qs[i] in multiset(ps);
    }
    forall i | 0 <= i < |ps| ensures ps[i] in qs {
      assert ps[i] in multiset(qs);
    }
    if min.Some? {
      var i :| 0 <= i < |ps| && ps[i].feeMin == min;
      var j :| 0 <= j < |qs| && qs[j] == ps[i];
      assert qs[j].feeMin == min;
    }
    if max.Some? {
      var i :| 0 <= i < |ps| && ps[i].feeMax == max;
      var j :| 0 <= j < |qs| && qs[j] == ps[i];
      assert qs[j].feeMax == max;
    }
  }

  /** The stored range covers every report's, and is well ordered once one report gave both ends in order. */
  lemma {:induction false} FeeRangeCovers(row: Rumour, ps: seq<Params>, i: nat)
    requires Summarises(row, ps) && i < |ps|
    ensures ps[i].feeMin.Some? ==> row.feeMin.Some? && row.feeMin.value <= ps[i].feeMin.value
    ensures ps[i].feeMax.Some? ==> row.feeMax.Some? && ps[i].feeMax.value <= row.feeMax.value
    ensures ps[i].feeMin.Some? && ps[i].feeMax.Some? && ps[i].feeMin.value <= ps[i].feeMax.value ==>
      row.feeMin.value <= row.feeMax.value
  {
  }

  /** The status never regresses: it is kept once terminal, and otherwise its rank only grows. */
  lemma {:induction false} StatusNeverRegresses(t: RumourTable, p: Params, key: Key)
    requires RumourIndex(t.rows, key) < |t.rows|
    ensures
      var t' := UpsertRow(t, p);
      var i := RumourIndex(t.rows, key);
      && RumourIndex(t'.rows, key) == i
      && t'.rows[i].id == t.rows[i].id
      && (t.rows[i].status.IsTerminal() ==> t'.rows[i].status == t.rows[i].status)
      && Rank(t.rows[i].status) <= Rank(t'.rows[i].status)
  {
    RowAt(t, p, key);
    var i := RumourIndex(t.rows, key);
    ForwardIs(t.rows[i].status, p.status);
  }

  /** A report has been taken in: storing it again would change nothing but the latest-report columns. */
  ghost predicate Absorbs(row: Rumour, p: Params) {
    && row.key == p.key
    && (row.status.IsTerminal() || (!p.status.IsTerminal() && Rank(p.status) <= Rank(row.status)))
    && (p.feeMin.Some? ==> row.feeMin.Some? && row.feeMin.value <= p.feeMin.value)
    && (p.feeMax.Some? ==> row.feeMax.Some? && p.feeMax.value <= row.feeMax.value)
  }

  /** A row absorbs the report that was just stored in it. */
  lemma {:induction false} AbsorbsOwn(t: RumourTable, p: Params)
    ensures Absorbs(RowOf(t, p), p)
  {
    var i := RumourIndex(t.rows, p.key);
    if i < |t.rows| {
      ForwardIs(t.rows[i].status, p.status);
    }
  }

  /** Later reports do not undo it. */
  lemma {:induction false} AbsorbsStill(row: Rumour, p: Params, later: Params)
    requires Absorbs(row, p)
    ensures Absorbs(Updated(row, later), p)
  {
    ForwardIs(row.status, later.status);
  }

  /** Storing an absorbed report again moves only from-club, summary and confidence. */
  lemma {:induction false} AbsorbedUpdate(row: Rumour, p: Params)
    requires Absorbs(row, p)
    ensures Updated(row, p) ==
      row.(fromClub := if p.fromClub.Some? then p.fromClub else row.fromClub, summary := p.summary, confidence := p.confidence)
  {
    ForwardIs(row.status, p.status);
  }
}

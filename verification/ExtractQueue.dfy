/** The unprocessed-article queue and what one extraction does to an article
    (internal/store/articles.go, internal/extract/gated.go, internal/pipeline/pipeline.go). */
module ExtractQueue {
  import opened Wrappers

  const BATCH_SIZE: nat := 50

  datatype Extraction = Extraction(playerName: string, toClubName: string, rejectedByGate: bool)

  /** An articles row; the table is kept in fetched_at order. */
  datatype Article = Article(id: nat, processed: bool, extraction: Option<Extraction>)

  /** Everything a run does not decide itself. Each article is extracted and marked at most once in a
      run, so what becomes of it is a function of its id; list calls and cancellation checks are
      numbered in the order they happen. */
  datatype Env = Env(
    classify: nat -> Option<real>,
    minProbability: real,
    extract: nat -> Option<Extraction>,
    marshalFails: nat -> bool,
    storeFails: nat -> bool,
    markFails: nat -> bool,
    listFails: nat -> bool,
    cancelled: nat -> bool,
    arrivals: nat -> seq<nat>)

  // ---------- one article ----------

  /** GatedExtractor.Extract: the extractor is asked only about articles that reach the threshold. */
  function GatedExtract(env: Env, id: nat): Option<Extraction> {
    match env.classify(id)
    case None => None
    case Some(probability) =>
      if probability < env.minProbability then Some(Extraction("", "", true))
      else env.extract(id)
  }

  datatype Outcome = ExtractFailed | Rejected | Incomplete | UpsertFailed | Clustered

  /** What becomes of an article that is attempted. */
  function OutcomeOf(env: Env, id: nat): Outcome {
    match GatedExtract(env, id)
    case None => ExtractFailed
    case Some(result) =>
      if result.rejectedByGate then Rejected
      else if result.playerName == "" || result.toClubName == "" then Incomplete
      else if env.storeFails(id) then UpsertFailed
      else Clustered
  }

  /** The extraction column MarkExtracted writes. */
  function ExtractionColumn(env: Env, id: nat): Option<Extraction> {
    if env.marshalFails(id) then None else GatedExtract(env, id)
  }

  // ---------- sequences of ids ----------

  function Count(env: Env, ids: seq<nat>, o: Outcome): nat {
    if ids == [] then 0
    else Count(env, ids[..|ids| - 1], o) + (if OutcomeOf(env, ids[|ids| - 1]) == o then 1 else 0)
  }

  /** The ids whose mark fails, in order. */
  function Stuck(env: Env, ids: seq<nat>): (r: seq<nat>)
    ensures |r| <= |ids|
  {
    if ids == [] then []
    else Stuck(env, ids[..|ids| - 1]) + (if env.markFails(ids[|ids| - 1]) then [ids[|ids| - 1]] else [])
  }

  ghost predicate Distinct(ids: seq<nat>) {
    forall i, j :: 0 <= i < j < |ids| ==> ids[i] != ids[j]
  }

  ghost function SetOf(ids: seq<nat>): set<nat> {
    set x | x in ids
  }

  lemma {:induction false} StuckConcat(env: Env, a: seq<nat>, b: seq<nat>)
    ensures Stuck(env, a + b) == Stuck(env, a) + Stuck(env, b)
  {
    if b == [] {
      assert a + b == a;
    } else {
      assert (a + b)[..|a + b| - 1] == a + b[..|b| - 1];
      StuckConcat(env, a, b[..|b| - 1]);
    }
  }

  lemma {:induction false} StuckIs(env: Env, ids: seq<nat>, x: nat)
    ensures x in Stuck(env, ids) <==> x in ids && env.markFails(x)
  {
    if ids != [] {
      StuckIs(env, ids[..|ids| - 1], x);
      assert ids == ids[..|ids| - 1] + [ids[|ids| - 1]];
    }
  }

  // ---------- the queue ----------

  /** The ids of the unprocessed rows, oldest first. */
  function Unprocessed(rows: seq<Article>): seq<nat> {
    if rows == [] then []
    else
      var last := rows[|rows| - 1];
      Unprocessed(rows[..|rows| - 1]) + (if last.processed then [] else [last.id])
  }

  ghost predicate DistinctRows(rows: seq<Article>) {
    forall i, j :: 0 <= i < j < |rows| ==> rows[i].id != rows[j].id
  }

  /** The table after these articles have been attempted. */
  ghost function Marked(env: Env, rows: seq<Article>, attempted: set<nat>): (after: seq<Article>)
    ensures |after| == |rows|
  {
    seq(|rows|, i requires 0 <= i < |rows| =>
      if rows[i].id in attempted && !env.markFails(rows[i].id)
      then rows[i].(processed := true, extraction := ExtractionColumn(env, rows[i].id))
      else rows[i])
  }

  /** The queue left of these ids once the attempted ones are marked where marking works. */
  ghost function Left(env: Env, ids: seq<nat>, attempted: set<nat>): seq<nat> {
    if ids == [] then []
    else
      var last := ids[|ids| - 1];
      Left(env, ids[..|ids| - 1], attempted) + (if last in attempted && !env.markFails(last) then [] else [last])
  }

  lemma {:induction false} UnprocessedMarked(env: Env, rows: seq<Article>, attempted: set<nat>)
    ensures Unprocessed(Marked(env, rows, attempted)) == Left(env, Unprocessed(rows), attempted)
  {
    hide ExtractionColumn;
    if rows != [] {
      var n := |rows| - 1;
      UnprocessedMarked(env, rows[..n], attempted);
      assert Marked(env, rows, attempted)[..n] == Marked(env, rows[..n], attempted);
      var before := Unprocessed(rows[..n]);
      if rows[n].processed {
        assert before + [] == before;
      } else {
        assert (before + [rows[n].id])[..|before|] == before;
      }
    }
  }

  lemma {:induction false} LeftAll(env: Env, a: seq<nat>, attempted: set<nat>)
    requires forall x :: x in a ==> x in attempted
    ensures Left(env, a, attempted) == Stuck(env, a)
  {
    if a != [] {
      LeftAll(env, a[..|a| - 1], attempted);
    }
  }

  lemma {:induction false} LeftSplit(env: Env, a: seq<nat>, b: seq<nat>, attempted: set<nat>)
    requires forall x :: x in a ==> x in attempted
    requires forall x :: x in b ==> x !in attempted
    ensures Left(env, a + b, attempted) == Stuck(env, a) + b
  {
    hide Stuck;
    if b == [] {
      assert a + b == a;
      LeftAll(env, a, attempted);
    } else {
      var b' := b[..|b| - 1];
      assert (a + b)[..|a + b| - 1] == a + b';
      LeftSplit(env, a, b', attempted);
      assert b == b' + [b[|b| - 1]];
    }
  }

  /** Once the first p articles of the queue are attempted, those that could not be marked are back
      at its head, in order, before the rest. */
  lemma {:induction false} QueueAfter(env: Env, rows: seq<Article>, p: nat)
    requires Distinct(Unprocessed(rows)) && p <= |Unprocessed(rows)|
    ensures
      var queue := Unprocessed(rows);
      Unprocessed(Marked(env, rows, SetOf(queue[..p]))) == Stuck(env, queue[..p]) + queue[p..]
  {
    var queue := Unprocessed(rows);
    UnprocessedMarked(env, rows, SetOf(queue[..p]));
    assert queue == queue[..p] + queue[p..];
    LeftSplit(env, queue[..p], queue[p..], SetOf(queue[..p]));
  }

  lemma {:induction false} UnprocessedAreRows(rows: seq<Article>, x: nat)
    ensures x in Unprocessed(rows) ==> exists i :: 0 <= i < |rows| && rows[i].id == x
  {
    if rows != [] {
      UnprocessedAreRows(rows[..|rows| - 1], x);
      if x in Unprocessed(rows[..|rows| - 1]) {
        var i :| 0 <= i < |rows| - 1 && rows[..|rows| - 1][i].id == x;
        assert rows[i].id == x;
      }
    }
  }

  lemma {:induction false} UnprocessedDistinct(rows: seq<Article>)
    requires DistinctRows(rows)
    ensures Distinct(Unprocessed(rows))
  {
    if rows != [] {
      var n := |rows| - 1;
      UnprocessedDistinct(rows[..n]);
      UnprocessedAreRows(rows[..n], rows[n].id);
    }
  }

  // ---------- how far a run gets ----------

  /** How many articles from the front a run attempts before budget of them are stuck. */
  function ReachWithin(env: Env, queue: seq<nat>, budget: nat): (p: nat)
    ensures p <= |queue|
  {
    if queue == [] || budget == 0 then 0
    else 1 + ReachWithin(env, queue[1..], if env.markFails(queue[0]) then budget - 1 else budget)
  }

  /** A run that is not capped attempts the queue up to and including the BATCH_SIZE-th article that
      cannot be marked, or all of it. */
  function Reach(env: Env, queue: seq<nat>): (p: nat)
    ensures p <= |queue|
  {
    ReachWithin(env, queue, BATCH_SIZE)
  }

  lemma {:induction false} ReachWithinIs(env: Env, queue: seq<nat>, budget: nat, p: nat)
    requires p <= |queue|
    ensures p <= ReachWithin(env, queue, budget) <==> p == 0 || |Stuck(env, queue[..p - 1])| < budget
  {
    if queue == [] {
    } else if budget == 0 {
    } else if p > 0 {
      ReachWithinIs(env, queue[1..], budget - (if env.markFails(queue[0]) then 1 else 0), p - 1);
      hide Stuck;
      NoneStuck(env);
      if p > 1 {
        StuckAfterFirst(env, queue, p - 1);
      }
    }
  }

  lemma {:induction false} NoneStuck(env: Env)
    ensures Stuck(env, []) == []
  {
  }

  lemma {:induction false} StuckAfterFirst(env: Env, queue: seq<nat>, p: nat)
    requires 0 < p <= |queue|
    ensures |Stuck(env, queue[..p])| ==
      (if env.markFails(queue[0]) then 1 else 0) + |Stuck(env, queue[1..][..p - 1])|
  {
    var rest := queue[1..][..p - 1];
    assert queue[..p] == [queue[0]] + rest;
    StuckConcat(env, [queue[0]], rest);
    assert [queue[0]][..0] == [];
  }

  /** Position p is within reach exactly when fewer than BATCH_SIZE articles before the one at p - 1 are stuck. */
  lemma {:induction false} ReachIs(env: Env, queue: seq<nat>, p: nat)
    requires p <= |queue|
    ensures p <= Reach(env, queue) <==> p == 0 || |Stuck(env, queue[..p - 1])| < BATCH_SIZE
  {
    ReachWithinIs(env, queue, BATCH_SIZE, p);
  }
}

/** The extract stage: drain the queue batch by batch (RunExtract in internal/pipeline/pipeline.go). */
module Pipeline {
  import opened Wrappers
  import opened ExtractQueue

  /** The counters of a run; upsertErrors counts the upsert failures that are only logged. */
  class ExtractStats {
    var batches: nat
    var extracted: nat
    var clustered: nat
    var rejected: nat
    var incomplete: nat
    var failed: nat
    var total: nat
    var unmarked: nat
    var skipped: nat
    var capped: bool
    ghost var upsertErrors: nat

    constructor ()
      ensures batches == extracted == clustered == rejected == incomplete == failed == total == unmarked == skipped == 0
      ensures upsertErrors == 0 && !capped
    {
      batches, extracted, clustered, rejected, incomplete, failed, total, unmarked, skipped := 0, 0, 0, 0, 0, 0, 0, 0, 0;
      capped := false;
      upsertErrors := 0;
    }

    /** The counters are those of having attempted exactly these articles. */
    ghost predicate Counts(env: Env, ids: seq<nat>)
      reads this
    {
      && total == |ids|
      && failed == Count(env, ids, ExtractFailed)
      && total == extracted + failed
      && extracted == rejected + incomplete + clustered + upsertErrors
      && rejected == Count(env, ids, Rejected)
      && incomplete == Count(env, ids, Incomplete)
      && clustered == Count(env, ids, Clustered)
      && upsertErrors == Count(env, ids, UpsertFailed)
      && unmarked == |Stuck(env, ids)|
    }
  }

  datatype RunError = NoError | Interrupted | ListFailed

  datatype BatchEnd = Done | AtCap | Cancelled

  datatype StepEnd = GoOn | Drained | Capped | Stopped

  /** The number of articles the cap allows. */
  function Allowed(maxArticles: int): nat {
    if maxArticles < 0 then 0 else maxArticles
  }

  function Min(a: nat, b: nat): nat {
    if a < b then a else b
  }

  /** The table with everything inserted before the first n list calls. */
  ghost function AllRows(rows: seq<Article>, env: Env, n: nat): seq<Article> {
    if n == 0 then rows else AllRows(rows, env, n - 1) + NewRows(env.arrivals(n - 1))
  }

  lemma {:induction false} MoreRows(rows: seq<Article>, env: Env, n: nat)
    ensures AllRows(rows, env, 0) == rows
    ensures AllRows(rows, env, n + 1) == AllRows(rows, env, n) + NewRows(env.arrivals(n))
  {
  }

  /** The first p articles of the queue of rows have been attempted, and nothing else. */
  ghost predicate Progress(env: Env, articles: seq<Article>, rows: seq<Article>, p: nat) {
    && DistinctRows(rows)
    && p <= |Unprocessed(rows)|
    && articles == Marked(env, rows, SetOf(Unprocessed(rows)[..p]))
  }

  /** The cancellation checks from the first-th up to the next-th found nothing, except that the last
      one found the run cancelled if it stopped there. */
  ghost predicate CheckedUpTo(env: Env, first: nat, next: nat, stopped: bool) {
    && (stopped ==> first < next && env.cancelled(next - 1))
    && (forall c: nat :: first <= c < next && !(stopped && c == next - 1) ==> !env.cancelled(c))
  }

  lemma {:induction false} ChecksFollow(env: Env, first: nat, middle: nat, next: nat, stopped: bool)
    requires CheckedUpTo(env, first, middle, false) && CheckedUpTo(env, middle, next, stopped)
    requires first <= middle <= next
    ensures CheckedUpTo(env, first, next, stopped)
  {
  }

  lemma {:induction false} NoCheckYet(env: Env, c: nat)
    ensures CheckedUpTo(env, c, c, false)
    ensures CheckedUpTo(env, c, c + 1, env.cancelled(c))
  {
  }

  /** The first n list calls worked, except that the last one failed if it did. */
  ghost predicate ListedUpTo(env: Env, n: nat, failed: bool) {
    && (failed ==> n > 0 && env.listFails(n - 1))
    && (forall k: nat :: k < n && !(failed && k == n - 1) ==> !env.listFails(k))
  }

  lemma {:induction false} OneMoreList(env: Env, n: nat)
    ensures ListedUpTo(env, 0, false)
    ensures ListedUpTo(env, n, false) ==> ListedUpTo(env, n + 1, env.listFails(n))
  {
  }

  /** The part of a listed batch that has not been attempted in this run. */
  function Unattempted(batch: seq<nat>, attempted: set<nat>): seq<nat> {
    if batch == [] then []
    else
      var last := batch[|batch| - 1];
      Unattempted(batch[..|batch| - 1], attempted) + (if last in attempted then [] else [last])
  }

  class ArticleStore {
    const env: Env
    var articles: seq<Article>

    constructor (env: Env, articles: seq<Article>)
      ensures this.env == env && this.articles == articles
    {
      this.env := env;
      this.articles := articles;
    }

    /** Up to limit unprocessed articles, oldest first. */
    method ListUnprocessed(limit: nat) returns (batch: seq<nat>)
      ensures batch == Unprocessed(articles)[..if limit < |Unprocessed(articles)| then limit else |Unprocessed(articles)|]
    {
      batch := [];
      var i := 0;
      while i < |articles| && |batch| < limit
        invariant i <= |articles| && |batch| <= limit
        invariant batch == Unprocessed(articles[..i])
      {
        assert articles[..i + 1][..i] == articles[..i];
        if !articles[i].processed {
          batch := batch + [articles[i].id];
        }
        i := i + 1;
      }
      UnprocessedPrefix(articles, i);
      if i == |articles| {
        assert articles[..i] == articles;
      }
    }

    /** UPDATE articles SET processed = true, extraction = column WHERE id = id. */
    method MarkExtracted(id: nat, column: Option<Extraction>) returns (ok: bool)
      modifies `articles
      ensures ok == !env.markFails(id)
      ensures |articles| == |old(articles)|
      ensures forall i :: 0 <= i < |articles| ==>
        articles[i] ==
          if ok && old(articles)[i].id == id then old(articles)[i].(processed := true, extraction := column)
          else old(articles)[i]
    {
      ok := !env.markFails(id);
      if ok {
        var before := articles;
        for i := 0 to |before|
          invariant |articles| == |before|
          invariant forall j :: i <= j < |before| ==> articles[j] == before[j]
          invariant forall j :: 0 <= j < i ==>
            articles[j] == if before[j].id == id then before[j].(processed := true, extraction := column) else before[j]
        {
          if articles[i].id == id {
            articles := articles[i := articles[i].(processed := true, extraction := column)];
          }
        }
      }
    }

    /** Articles another process has inserted meanwhile; their ids are new. */
    method Arrive(ids: seq<nat>)
      modifies `articles
      ensures articles == old(articles) + NewRows(ids)
    {
      articles := articles + NewRows(ids);
    }

    /** extractOne: whatever the outcome, the article is marked processed if that works. */
    method ExtractOne(id: nat, st: ExtractStats, ghost rows: seq<Article>, ghost ids: seq<nat>)
      requires articles == Marked(env, rows, SetOf(ids)) && id !in ids
      requires st.total == |ids| + 1
      requires st.failed == Count(env, ids, ExtractFailed) && st.extracted + st.failed == |ids|
      requires st.extracted == st.rejected + st.incomplete + st.clustered + st.upsertErrors
      requires st.rejected == Count(env, ids, Rejected) && st.incomplete == Count(env, ids, Incomplete)
      requires st.clustered == Count(env, ids, Clustered) && st.upsertErrors == Count(env, ids, UpsertFailed)
      requires st.unmarked == |Stuck(env, ids)|
      modifies `articles, st
      ensures st.Counts(env, ids + [id])
      ensures articles == Marked(env, rows, SetOf(ids + [id]))
      ensures st.batches == old(st.batches) && st.skipped == old(st.skipped) && st.capped == old(st.capped)
    {
      hide Marked, GatedExtract, SetOf, Count, Stuck;
      CountsOneMore(env, ids, id);
      var column := None;
      match GatedExtract(env, id) {
        case None =>
          st.failed := st.failed + 1;
        case Some(result) =>
          st.extracted := st.extracted + 1;
          column := if env.marshalFails(id) then None else Some(result);
          ClusterOne(id, result, st);
      }
      ghost var before := articles;
      var ok := MarkExtracted(id, column);
      if !ok {
        st.unmarked := st.unmarked + 1;
      }
      MarkedOneMore(env, rows, ids, id, before, articles);
    }

    /** One step of that loop: the article is attempted and counted, then extracted. */
    method Attempt(id: nat, attempted0: set<nat>, st: ExtractStats, ghost rows: seq<Article>)
      returns (attempted: set<nat>)
      requires st.total < |Unprocessed(rows)| && id == Unprocessed(rows)[st.total]
      requires Progress(env, articles, rows, st.total)
      requires st.Counts(env, Unprocessed(rows)[..st.total]) && attempted0 == SetOf(Unprocessed(rows)[..st.total])
      modifies `articles, st
      ensures st.total == old(st.total) + 1
      ensures Progress(env, articles, rows, st.total)
      ensures st.Counts(env, Unprocessed(rows)[..st.total]) && attempted == SetOf(Unprocessed(rows)[..st.total])
      ensures st.batches == old(st.batches) && st.skipped == old(st.skipped) && st.capped == old(st.capped)
    {
      hide Marked, Count, Stuck, Unprocessed, SetOf;
      ghost var queue, p := Unprocessed(rows), st.total;
      UnprocessedDistinct(rows);
      assert queue[..p + 1] == queue[..p] + [id];
      SetOfOneMore(queue[..p], id);
      attempted := attempted0 + {id};
      st.total := st.total + 1;
      ExtractOne(id, st, rows, queue[..p]);
    }

    /** The loop over one batch of fresh articles. */
    method RunBatch(
      todo: seq<nat>, maxArticles: int, attempted0: set<nat>, checks0: nat, st: ExtractStats, ghost rows: seq<Article>)
      returns (end: BatchEnd, attempted: set<nat>, checks: nat)
      requires Progress(env, articles, rows, st.total)
      requires st.Counts(env, Unprocessed(rows)[..st.total]) && attempted0 == SetOf(Unprocessed(rows)[..st.total])
      requires st.total + |todo| <= |Unprocessed(rows)| && todo == Unprocessed(rows)[st.total..st.total + |todo|]
      requires st.total <= Allowed(maxArticles) && !st.capped && st.skipped == 0
      modifies `articles, st
      ensures Progress(env, articles, rows, st.total)
      ensures st.Counts(env, Unprocessed(rows)[..st.total]) && attempted == SetOf(Unprocessed(rows)[..st.total])
      ensures old(st.total) <= st.total <= old(st.total) + |todo| && st.total <= Allowed(maxArticles)
      ensures end == Done <==> st.total == old(st.total) + |todo|
      ensures end == AtCap <==> st.capped
      ensures end == AtCap ==> st.total == Allowed(maxArticles)
      ensures st.skipped == if end == Cancelled then old(st.total) + |todo| - st.total else 0
      ensures CheckedUpTo(env, checks0, checks, end == Cancelled)
      ensures checks == checks0 + (st.total - old(st.total)) + (if end == Cancelled then 1 else 0)
      ensures st.batches == old(st.batches)
    {
      hide Progress, Unprocessed, CheckedUpTo, SetOf, Count, Stuck;
      attempted, checks, end := attempted0, checks0, Done;
      ghost var p, queue := st.total, Unprocessed(rows);
      NoCheckYet(env, checks);
      for i := 0 to |todo|
        invariant Progress(env, articles, rows, p + i)
        invariant st.total == p + i && st.Counts(env, queue[..p + i]) && attempted == SetOf(queue[..p + i])
        invariant p + i <= Allowed(maxArticles) && !st.capped && st.skipped == 0
        invariant checks == checks0 + i && CheckedUpTo(env, checks0, checks, false) && st.batches == old(st.batches)
      {
        if st.total >= maxArticles {
          st.capped := true;
          end := AtCap;
          return;
        }
        NoCheckYet(env, checks);
        ChecksFollow(env, checks0, checks, checks + 1, env.cancelled(checks));
        checks := checks + 1;
        if env.cancelled(checks - 1) {
          st.skipped := |todo| - i;
          end := Cancelled;
          return;
        }
        attempted := Attempt(todo[i], attempted, st, rows);
      }
    }

    /** Filter a listed batch by the articles already attempted. */
    method TakeUnattempted(batch: seq<nat>, attempted: set<nat>) returns (todo: seq<nat>)
      ensures todo == Unattempted(batch, attempted)
    {
      todo := [];
      for i := 0 to |batch|
        invariant todo == Unattempted(batch[..i], attempted)
      {
        assert batch[..i + 1][..i] == batch[..i];
        if batch[i] !in attempted {
          todo := todo + [batch[i]];
        }
      }
      assert batch[..|batch|] == batch;
    }

    /** One round of RunExtract's outer loop after its list call is due: list, filter, run the batch.
        The ghost result is the number of unattempted articles listed. */
    method Round(maxArticles: int, attempted0: set<nat>, checks0: nat, st: ExtractStats, ghost rows: seq<Article>)
      returns (end: StepEnd, attempted: set<nat>, checks: nat, ghost listed: nat)
      requires Progress(env, articles, rows, st.total) && st.total <= Reach(env, Unprocessed(rows))
      requires st.Counts(env, Unprocessed(rows)[..st.total]) && attempted0 == SetOf(Unprocessed(rows)[..st.total])
      requires st.total <= Allowed(maxArticles) && !st.capped && st.skipped == 0
      modifies `articles, st
      ensures Progress(env, articles, rows, st.total) && st.total <= Reach(env, Unprocessed(rows))
      ensures st.Counts(env, Unprocessed(rows)[..st.total]) && attempted == SetOf(Unprocessed(rows)[..st.total])
      ensures old(st.total) <= st.total <= Allowed(maxArticles)
      ensures st.capped <==> end == Capped
      ensures end == GoOn ==> old(st.total) < st.total
      ensures end == Drained ==> st.total == Reach(env, Unprocessed(rows))
      ensures end == Capped ==> st.total == Allowed(maxArticles) < Reach(env, Unprocessed(rows))
      ensures end != Stopped ==> st.skipped == 0
      ensures end != Capped ==> st.total + st.skipped == old(st.total) + listed
      ensures CheckedUpTo(env, checks0, checks, end == Stopped)
      ensures checks == checks0 + (st.total - old(st.total)) + (if end == Stopped then 1 else 0)
      ensures st.batches == old(st.batches) + (if listed > 0 then 1 else 0)
      ensures listed == 0 ==> end == Drained
    {
      hide Marked, Count, Stuck, Unprocessed, Unattempted, Reach, Progress, DistinctRows;
      attempted, checks, listed := attempted0, checks0, 0;
      var batch := ListUnprocessed(BATCH_SIZE);
      var todo := TakeUnattempted(batch, attempted);
      BatchIs(env, articles, rows, st.total, batch, todo);
      if todo == [] {
        end := Drained;
        return;
      }
      st.batches := st.batches + 1;
      listed := |todo|;
      ghost var before := st.total;
      var batchEnd;
      batchEnd, attempted, checks := RunBatch(todo, maxArticles, attempted, checks, st, rows);
      BatchReach(env, Unprocessed(rows), before, |todo|, st.total);
      match batchEnd {
        case AtCap => end := Capped;
        case Cancelled => end := Stopped;
        case Done => end := if |batch| < BATCH_SIZE then Drained else GoOn;
      }
    }

    /** What comes before a round: check for cancellation, then list. Articles may have arrived, and the
        list call may fail. */
    method AwaitList(listCalls0: nat, st: ExtractStats, ghost start: seq<Article>, ghost rows0: seq<Article>)
      returns (err: RunError, listCalls: nat, ghost rows: seq<Article>)
      requires forall n: nat :: DistinctRows(AllRows(start, env, n))
      requires rows0 == AllRows(start, env, listCalls0) && Progress(env, articles, rows0, st.total)
      requires st.total <= Reach(env, Unprocessed(rows0))
      requires CheckedUpTo(env, 0, listCalls0 + st.total, false) && ListedUpTo(env, listCalls0, false)
      modifies `articles
      ensures rows == AllRows(start, env, listCalls) && Progress(env, articles, rows, st.total)
      ensures st.total <= Reach(env, Unprocessed(rows))
      ensures Unprocessed(rows)[..st.total] == Unprocessed(rows0)[..st.total]
      ensures listCalls == listCalls0 + (if err == Interrupted then 0 else 1)
      ensures
        var checks := listCalls + st.total + (if err == Interrupted then 1 else 0);
        CheckedUpTo(env, 0, checks, err == Interrupted)
      ensures ListedUpTo(env, listCalls, err == ListFailed)
    {
      hide Unprocessed, Reach, Progress, DistinctRows, CheckedUpTo, ListedUpTo, AllRows, NewRows;
      err, listCalls, rows := NoError, listCalls0, rows0;
      var checks := listCalls + st.total;
      NoCheckYet(env, checks);
      ChecksFollow(env, 0, checks, checks + 1, env.cancelled(checks));
      if env.cancelled(checks) {
        err := Interrupted;
        return;
      }
      assert DistinctRows(AllRows(start, env, listCalls + 1));
      MoreRows(start, env, listCalls);
      ArrivalsKeepPlace(env, articles, rows, env.arrivals(listCalls), st.total);
      Arrive(env.arrivals(listCalls));
      rows := rows + NewRows(env.arrivals(listCalls));
      OneMoreList(env, listCalls);
      listCalls := listCalls + 1;
      if env.listFails(listCalls - 1) {
        err := ListFailed;
      }
    }

    /** RunExtract. The ghost results are the rows seen by the last list call and the number of
        unattempted articles all list calls together returned. */
    method RunExtract(maxArticles: int)
      returns (st: ExtractStats, err: RunError, listCalls: nat, ghost rows: seq<Article>, ghost taken: nat)
      requires forall n: nat :: DistinctRows(AllRows(articles, env, n))
      modifies `articles
      ensures fresh(st)
      ensures rows == AllRows(old(articles), env, listCalls)
      ensures Progress(env, articles, rows, st.total) && st.Counts(env, Unprocessed(rows)[..st.total])
      ensures st.total <= Allowed(maxArticles) && listCalls <= Allowed(maxArticles) + 1
      ensures st.total <= Reach(env, Unprocessed(rows))
      ensures err == NoError ==> Finished(env, articles, rows, st.total, maxArticles, st.capped)
      ensures err != NoError ==> !st.capped
      ensures st.skipped > 0 ==> err == Interrupted
      ensures !st.capped ==> st.total + st.skipped == taken
      ensures
        var checks := listCalls + st.total + (if err == Interrupted then 1 else 0);
        CheckedUpTo(env, 0, checks, err == Interrupted)
      ensures ListedUpTo(env, listCalls, err == ListFailed)
      ensures st.batches <= listCalls <= st.batches + 1
    {
      hide Marked, Count, Stuck, Unprocessed, Unattempted, Reach, Progress, DistinctRows, CheckedUpTo, ListedUpTo;
      hide AllRows, NewRows, SetOf;
      st := new ExtractStats();
      err, listCalls, rows, taken := NoError, 0, articles, 0;
      var attempted: set<nat> := {};
      assert DistinctRows(AllRows(old(articles), env, 0));
      MoreRows(old(articles), env, 0);
      NothingAttempted(env, rows);
      NoCheckYet(env, 0);
      OneMoreList(env, 0);
      while true
        invariant rows == AllRows(old(articles), env, listCalls)
        invariant Progress(env, articles, rows, st.total) && st.total <= Reach(env, Unprocessed(rows))
        invariant st.Counts(env, Unprocessed(rows)[..st.total]) && attempted == SetOf(Unprocessed(rows)[..st.total])
        invariant listCalls <= st.total <= Allowed(maxArticles)
        invariant fresh(st) && !st.capped && st.skipped == 0 && taken == st.total
        invariant CheckedUpTo(env, 0, listCalls + st.total, false)
        invariant st.batches == listCalls && ListedUpTo(env, listCalls, false)
        decreases Allowed(maxArticles) - st.total
      {
        err, listCalls, rows := AwaitList(listCalls, st, old(articles), rows);
        if err != NoError {
          return;
        }
        var end, checks;
        ghost var listed, checked := 0, listCalls + st.total;
        end, attempted, checks, listed := Round(maxArticles, attempted, listCalls + st.total, st, rows);
        ChecksFollow(env, 0, checked, checks, end == Stopped);
        taken := taken + listed;
        if end == Stopped {
          err := Interrupted;
        }
        if end != GoOn {
          return;
        }
      }
    }

    /** clusterOne. */
    method ClusterOne(id: nat, result: Extraction, st: ExtractStats)
      requires GatedExtract(env, id) == Some(result)
      modifies st
      ensures st.rejected == old(st.rejected) + (if OutcomeOf(env, id) == Rejected then 1 else 0)
      ensures st.incomplete == old(st.incomplete) + (if OutcomeOf(env, id) == Incomplete then 1 else 0)
      ensures st.clustered == old(st.clustered) + (if OutcomeOf(env, id) == Clustered then 1 else 0)
      ensures st.upsertErrors == old(st.upsertErrors) + (if OutcomeOf(env, id) == UpsertFailed then 1 else 0)
      ensures st.batches == old(st.batches) && st.extracted == old(st.extracted) && st.failed == old(st.failed)
      ensures st.total == old(st.total) && st.unmarked == old(st.unmarked)
      ensures st.skipped == old(st.skipped) && st.capped == old(st.capped)
    {
      if result.rejectedByGate {
        st.rejected := st.rejected + 1;
        return;
      }
      if result.playerName == "" || result.toClubName == "" {
        st.incomplete := st.incomplete + 1;
      } else if env.storeFails(id) {
        st.upsertErrors := st.upsertErrors + 1;
      } else {
        st.clustered := st.clustered + 1;
      }
    }
  }

  function NewRows(ids: seq<nat>): (rows: seq<Article>)
    ensures |rows| == |ids|
  {
    seq(|ids|, i requires 0 <= i < |ids| => Article(ids[i], false, None))
  }

  lemma {:induction false} UnprocessedPrefix(rows: seq<Article>, i: nat)
    requires i <= |rows|
    ensures Unprocessed(rows[..i]) <= Unprocessed(rows)
  {
    if i == |rows| {
      assert rows[..i] == rows;
    } else {
      UnprocessedPrefix(rows[..|rows| - 1], i);
      assert rows[..|rows| - 1][..i] == rows[..i];
    }
  }

  lemma {:induction false} MarkedOneMore(
    env: Env, rows: seq<Article>, ids: seq<nat>, id: nat, before: seq<Article>, after: seq<Article>)
    requires id !in ids && before == Marked(env, rows, SetOf(ids)) && |after| == |before|
    requires forall i :: 0 <= i < |before| ==>
      after[i] ==
        if !env.markFails(id) && before[i].id == id then
          before[i].(processed := true, extraction := ExtractionColumn(env, id))
        else before[i]
    ensures after == Marked(env, rows, SetOf(ids + [id]))
  {
    hide ExtractionColumn;
    assert SetOf(ids + [id]) == SetOf(ids) + {id};
  }

  lemma {:induction false} SetOfOneMore(ids: seq<nat>, id: nat)
    ensures SetOf(ids + [id]) == SetOf(ids) + {id}
  {
  }

  lemma {:induction false} CountsOneMore(env: Env, ids: seq<nat>, id: nat)
    ensures forall o :: Count(env, ids + [id], o) == Count(env, ids, o) + (if OutcomeOf(env, id) == o then 1 else 0)
    ensures |Stuck(env, ids + [id])| == |Stuck(env, ids)| + (if env.markFails(id) then 1 else 0)
  {
    hide OutcomeOf;
    assert (ids + [id])[..|ids|] == ids;
  }

  lemma {:induction false} NothingAttempted(env: Env, rows: seq<Article>)
    requires DistinctRows(rows)
    ensures Progress(env, rows, rows, 0)
    ensures Unprocessed(rows)[..0] == [] && SetOf([]) == {} && Stuck(env, []) == [] && forall o :: Count(env, [], o) == 0
  {
    hide Unprocessed;
    assert Unprocessed(rows)[..0] == [];
    assert Marked(env, rows, SetOf([])) == rows;
  }

  lemma {:induction false} UnprocessedConcat(a: seq<Article>, b: seq<Article>)
    ensures Unprocessed(a + b) == Unprocessed(a) + Unprocessed(b)
  {
    if b == [] {
      assert a + b == a;
    } else {
      assert (a + b)[..|a + b| - 1] == a + b[..|b| - 1];
      UnprocessedConcat(a, b[..|b| - 1]);
    }
  }

  /** New articles join the queue at its end, so what has been attempted stays its front. */
  lemma {:induction false} ArrivalsKeepPlace(env: Env, articles: seq<Article>, rows: seq<Article>, ids: seq<nat>, p: nat)
    requires Progress(env, articles, rows, p) && DistinctRows(rows + NewRows(ids))
    requires p <= Reach(env, Unprocessed(rows))
    ensures Progress(env, articles + NewRows(ids), rows + NewRows(ids), p)
    ensures Unprocessed(rows + NewRows(ids))[..p] == Unprocessed(rows)[..p]
    ensures p <= Reach(env, Unprocessed(rows + NewRows(ids)))
  {
    hide Unprocessed, Reach, Stuck;
    var queue, queue' := Unprocessed(rows), Unprocessed(rows + NewRows(ids));
    UnprocessedConcat(rows, NewRows(ids));
    assert queue'[..p] == queue[..p];
    forall x | x in queue[..p] ensures x !in ids {
      UnprocessedAreRows(rows, x);
      var i :| 0 <= i < |rows| && rows[i].id == x;
      forall j | 0 <= j < |ids| ensures ids[j] != x {
        assert (rows + NewRows(ids))[i] == rows[i] && (rows + NewRows(ids))[|rows| + j] == NewRows(ids)[j];
      }
    }
    assert Marked(env, rows + NewRows(ids), SetOf(queue[..p])) == articles + NewRows(ids);
    ReachIs(env, queue, p);
    ReachIs(env, queue', p);
    if p > 0 {
      assert queue'[..p - 1] == queue[..p - 1];
    }
  }

  lemma {:induction false} UnattemptedSplit(a: seq<nat>, b: seq<nat>, attempted: set<nat>)
    requires forall x :: x in a ==> x in attempted
    requires forall x :: x in b ==> x !in attempted
    ensures Unattempted(a + b, attempted) == b
  {
    if b != [] {
      var b' := b[..|b| - 1];
      assert (a + b)[..|a + b| - 1] == a + b';
      UnattemptedSplit(a, b', attempted);
      assert b == b' + [b[|b| - 1]];
    } else if a != [] {
      var a' := a[..|a| - 1];
      assert (a + b)[..|a + b| - 1] == a' + [];
      UnattemptedSplit(a', [], attempted);
    }
  }

  /** The fresh part of a listed batch is the next stretch of the queue; an empty one means that
      everything within reach has been attempted, a short batch that everything queued has. */
  lemma {:induction false} BatchIs(
    env: Env, articles: seq<Article>, rows: seq<Article>, p: nat, batch: seq<nat>, todo: seq<nat>)
    requires Progress(env, articles, rows, p) && p <= Reach(env, Unprocessed(rows))
    requires batch == Unprocessed(articles)[..Min(BATCH_SIZE, |Unprocessed(articles)|)]
    requires todo == Unattempted(batch, SetOf(Unprocessed(rows)[..p]))
    ensures
      var queue := Unprocessed(rows);
      && p + |todo| <= |queue| && todo == queue[p..p + |todo|]
      && |Stuck(env, queue[..p])| + |todo| <= BATCH_SIZE
      && (todo == [] ==> p == Reach(env, queue))
      && (|batch| < BATCH_SIZE ==> p + |todo| == |queue|)
  {
    hide Unprocessed, Reach, Marked, Stuck, Unattempted, SetOf;
    var queue := Unprocessed(rows);
    var stuck := Stuck(env, queue[..p]);
    UnprocessedDistinct(rows);
    QueueAfter(env, rows, p);
    StuckSoFar(env, queue, p);
    var k := Min(BATCH_SIZE - |stuck|, |queue| - p);
    PrefixOfConcat(stuck, queue[p..], k);
    assert queue[p..][..k] == queue[p..p + k];
    NotYetAttempted(env, queue, p, k);
    UnattemptedSplit(stuck, queue[p..p + k], SetOf(queue[..p]));
    assert |todo| == k;
    if k == 0 && p < |queue| {
      ReachIs(env, queue, p + 1);
    }
  }

  lemma {:induction false} PrefixOfConcat(a: seq<nat>, b: seq<nat>, k: nat)
    requires k <= |b|
    ensures (a + b)[..|a| + k] == a + b[..k]
  {
  }

  lemma {:induction false} NotYetAttempted(env: Env, queue: seq<nat>, p: nat, k: nat)
    requires Distinct(queue) && p + k <= |queue|
    ensures forall x :: x in Stuck(env, queue[..p]) ==> x in SetOf(queue[..p])
    ensures forall x :: x in queue[p..p + k] ==> x !in SetOf(queue[..p])
  {
    hide Stuck;
    forall x | x in Stuck(env, queue[..p]) ensures x in SetOf(queue[..p]) {
      StuckIs(env, queue[..p], x);
    }
  }

  /** Never more than BATCH_SIZE of the attempted articles are stuck. */
  lemma {:induction false} StuckSoFar(env: Env, queue: seq<nat>, p: nat)
    requires p <= |queue| && p <= Reach(env, queue)
    ensures |Stuck(env, queue[..p])| <= BATCH_SIZE
  {
    ReachIs(env, queue, p);
    if p > 0 {
      assert queue[..p][..p - 1] == queue[..p - 1];
    }
  }

  lemma {:induction false} StuckGrowth(env: Env, queue: seq<nat>, p: nat, q: nat)
    requires p <= q <= |queue|
    ensures |Stuck(env, queue[..q])| <= |Stuck(env, queue[..p])| + (q - p)
  {
    assert queue[..q] == queue[..p] + queue[p..q];
    StuckConcat(env, queue[..p], queue[p..q]);
  }

  /** A batch stays within reach, and what it leaves unattempted is within reach too. */
  lemma {:induction false} BatchReach(env: Env, queue: seq<nat>, before: nat, k: nat, total: nat)
    requires before <= total <= before + k <= |queue| && before <= Reach(env, queue)
    requires |Stuck(env, queue[..before])| + k <= BATCH_SIZE
    ensures total <= Reach(env, queue)
    ensures total < before + k ==> total < Reach(env, queue)
  {
    hide Reach, Stuck;
    if total > before {
      StuckGrowth(env, queue, before, total - 1);
      ReachIs(env, queue, total);
    }
    if total < before + k {
      StuckGrowth(env, queue, before, total);
      ReachIs(env, queue, total + 1);
    }
  }

  // ---------- what the exits mean ----------

  /** Everything queued is within reach exactly when fewer than BATCH_SIZE articles other than the
      last one cannot be marked. */
  lemma {:induction false} AllWithinReach(env: Env, queue: seq<nat>)
    ensures Reach(env, queue) == |queue| <==> queue == [] || |Stuck(env, queue[..|queue| - 1])| < BATCH_SIZE
  {
    ReachIs(env, queue, |queue|);
  }

  /** Nothing arriving: every list call sees the rows the run started with. */
  lemma {:induction false} NoArrivals(rows: seq<Article>, env: Env, n: nat)
    requires forall k :: 0 <= k < n ==> env.arrivals(k) == []
    ensures AllRows(rows, env, n) == rows
  {
    if n > 0 {
      NoArrivals(rows, env, n - 1);
    }
  }

  /** The state of a run that returned without error, as RunExtract's contract gives it. */
  ghost predicate Finished(env: Env, articles: seq<Article>, rows: seq<Article>, total: nat, maxArticles: int, capped: bool) {
    && Progress(env, articles, rows, total)
    && total == Min(Allowed(maxArticles), Reach(env, Unprocessed(rows)))
    && (capped <==> Allowed(maxArticles) < Reach(env, Unprocessed(rows)))
  }

  /** What is left in the queue: the attempted articles that could not be marked, then the rest. */
  lemma {:induction false} QueueLeft(env: Env, articles: seq<Article>, rows: seq<Article>, p: nat)
    requires Progress(env, articles, rows, p)
    ensures Unprocessed(articles) == Stuck(env, Unprocessed(rows)[..p]) + Unprocessed(rows)[p..]
    ensures |Unprocessed(articles)| == |Unprocessed(rows)| - p + |Stuck(env, Unprocessed(rows)[..p])|
  {
    UnprocessedDistinct(rows);
    QueueAfter(env, rows, p);
  }

  /** With fewer than BATCH_SIZE unmarked articles, Capped says exactly whether a never-attempted
      article is still queued; when it is not set, all that is left was attempted and could not be marked. */
  lemma {:induction false} CappedMeansWorkLeft(
    env: Env, articles: seq<Article>, rows: seq<Article>, total: nat, maxArticles: int, capped: bool)
    requires Finished(env, articles, rows, total, maxArticles, capped)
    requires |Stuck(env, Unprocessed(rows)[..total])| < BATCH_SIZE
    ensures capped <==> exists x :: x in Unprocessed(articles) && x !in Unprocessed(rows)[..total]
    ensures !capped ==> Unprocessed(articles) == Stuck(env, Unprocessed(rows))
  {
    hide Reach, Unprocessed, Stuck, Marked;
    var queue := Unprocessed(rows);
    QueueLeft(env, articles, rows, total);
    UnprocessedDistinct(rows);
    if total < |queue| {
      ReachIs(env, queue, total + 1);
      assert queue[total] in queue[total..] && queue[total] in Unprocessed(articles);
    } else {
      assert queue[..total] == queue && queue[total..] == [];
      forall x | x in Unprocessed(articles) ensures x in queue[..total] {
        StuckIs(env, queue[..total], x);
      }
    }
  }

  /** In general a never-attempted article is left exactly when the run was capped or BATCH_SIZE
      unmarkable articles come before the last queued one. */
  lemma {:induction false} NeverAttemptedLeft(
    env: Env, articles: seq<Article>, rows: seq<Article>, total: nat, maxArticles: int, capped: bool)
    requires Finished(env, articles, rows, total, maxArticles, capped)
    ensures
      var queue := Unprocessed(rows);
      total < |queue| <==>
        capped || (queue != [] && |Stuck(env, queue[..|queue| - 1])| >= BATCH_SIZE)
  {
    hide Reach, Unprocessed, Stuck, Marked;
    AllWithinReach(env, Unprocessed(rows));
  }

  // ---------- a run that stops early ----------

  lemma {:induction false} AllStuck(env: Env, ids: seq<nat>)
    requires forall id :: env.markFails(id)
    ensures Stuck(env, ids) == ids
  {
    if ids != [] {
      AllStuck(env, ids[..|ids| - 1]);
    }
  }

  lemma {:induction false} NewRowsQueued(ids: seq<nat>)
    ensures Unprocessed(NewRows(ids)) == ids
  {
    if ids != [] {
      var n := |ids| - 1;
      assert NewRows(ids)[..n] == NewRows(ids[..n]);
      NewRowsQueued(ids[..n]);
    }
  }

  /** The run can stop early: with no mark going through, every run over BATCH_SIZE + 1 queued articles
      that returns without error, whatever the cap allows beyond BATCH_SIZE, attempts all but the last and is
      not capped. */
  lemma {:induction false} LastArticleNotReached(env: Env, ids: seq<nat>, articles: seq<Article>, maxArticles: int)
    requires forall id :: env.markFails(id)
    requires |ids| == BATCH_SIZE + 1 && maxArticles > BATCH_SIZE
    ensures Reach(env, Unprocessed(NewRows(ids))) == BATCH_SIZE
    ensures forall n: nat, capped :: Finished(env, articles, NewRows(ids), n, maxArticles, capped) ==> n == BATCH_SIZE && !capped
  {
    hide Reach;
    var total := BATCH_SIZE;
    NewRowsQueued(ids);
    AllStuck(env, ids[..total - 1]);
    AllStuck(env, ids[..total]);
    ReachIs(env, ids, total);
    ReachIs(env, ids, total + 1);
  }

  /** One such input: articles 0 to BATCH_SIZE, every call of the run working but the marks. */
  lemma {:induction false} SomeRunStopsEarly(maxArticles: int) returns (env: Env, rows: seq<Article>)
    requires maxArticles > BATCH_SIZE
    ensures DistinctRows(rows) && Reach(env, Unprocessed(rows)) == 50 && |Unprocessed(rows)| == 51
    ensures forall articles, n: nat, capped ::
      Finished(env, articles, rows, n, maxArticles, capped) ==> n < |Unprocessed(rows)| && !capped
  {
    hide Reach, Finished, Unprocessed;
    env := Env(_ => Some(1.0), 0.5, _ => Some(Extraction("A", "B", false)), _ => false, _ => false,
               _ => true, _ => false, _ => false, _ => []);
    var ids := seq(BATCH_SIZE + 1, i => i);
    rows := NewRows(ids);
    NewRowsQueued(ids);
    forall articles, n: nat, capped | Finished(env, articles, rows, n, maxArticles, capped)
      ensures n < |Unprocessed(rows)| && !capped
    {
      LastArticleNotReached(env, ids, articles, maxArticles);
    }
    LastArticleNotReached(env, ids, rows, maxArticles);
  }
}

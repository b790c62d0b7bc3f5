/** What a run says of the articles it attempted, article by article: which way the gate cuts, what a
    marked row holds, and what the counters count (internal/pipeline/pipeline.go, internal/extract/gated.go). */
module ExtractOutcomes {
  import opened Wrappers
  import opened ExtractQueue
  import opened Pipeline

  // ---------- the outcome of one article ----------

  /** The classifier gave no answer. */
  predicate Unclassified(env: Env, id: nat) {
    env.classify(id).None?
  }

  predicate BelowThreshold(env: Env, id: nat) {
    env.classify(id).Some? && env.classify(id).value < env.minProbability
  }

  /** The article reached the threshold, and the extractor answered with x. */
  predicate Extracted(env: Env, id: nat, x: Extraction) {
    env.classify(id).Some? && env.classify(id).value >= env.minProbability && env.extract(id) == Some(x)
  }

  /** The article was classified in vain, or extracted in vain once it reached the threshold. */
  predicate FailedToExtract(env: Env, id: nat) {
    Unclassified(env, id) || (env.classify(id).value >= env.minProbability && env.extract(id) == None)
  }

  predicate NamesMissing(x: Extraction) {
    x.playerName == "" || x.toClubName == ""
  }

  /** An article below the threshold is rejected whatever the extractor would say; one at or above it is
      what its extraction makes of it. */
  lemma {:induction false} OutcomeIs(env: Env, id: nat)
    ensures OutcomeOf(env, id) == ExtractFailed <==> FailedToExtract(env, id)
    ensures BelowThreshold(env, id) ==> OutcomeOf(env, id) == Rejected
    ensures forall x :: Extracted(env, id, x) ==>
      && (OutcomeOf(env, id) == Rejected <==> x.rejectedByGate)
      && (OutcomeOf(env, id) == Incomplete <==> !x.rejectedByGate && NamesMissing(x))
      && (OutcomeOf(env, id) == UpsertFailed <==> !x.rejectedByGate && !NamesMissing(x) && env.storeFails(id))
      && (OutcomeOf(env, id) == Clustered <==> !x.rejectedByGate && !NamesMissing(x) && !env.storeFails(id))
  {
  }

  /** What is stored for an article: nothing after a failure, the mark of rejection below the threshold,
      and otherwise exactly what was extracted. */
  ghost predicate Stores(env: Env, id: nat, column: Option<Extraction>) {
    && (FailedToExtract(env, id) || env.marshalFails(id) ==> column == None)
    && (BelowThreshold(env, id) && !env.marshalFails(id) ==> column == Some(Extraction("", "", true)))
    && (forall x :: Extracted(env, id, x) && !env.marshalFails(id) ==> column == Some(x))
  }

  // ---------- the rows a run leaves ----------

  /** A row is marked with what its article stores if it was attempted and its mark worked, and is
      otherwise as the run found it. */
  lemma {:induction false} RowAfterRun(env: Env, articles: seq<Article>, rows: seq<Article>, p: nat, i: nat)
    requires Progress(env, articles, rows, p) && i < |rows|
    ensures |articles| == |rows| && articles[i].id == rows[i].id
    ensures
      var id := rows[i].id;
      if id in Unprocessed(rows)[..p] && !env.markFails(id)
      then articles[i].processed && Stores(env, id, articles[i].extraction)
      else articles[i] == rows[i]
  {
    hide Unprocessed;
  }

  /** The queue is the unprocessed rows in the order of the table. */
  lemma {:induction false} QueuePlace(rows: seq<Article>, i: nat)
    requires i < |rows| && !rows[i].processed
    ensures
      var k := |Unprocessed(rows[..i])|;
      k < |Unprocessed(rows)| && Unprocessed(rows)[k] == rows[i].id
  {
    UnprocessedPrefix(rows, i + 1);
    assert rows[..i + 1][..i] == rows[..i];
  }

  lemma {:induction false} QueueRow(rows: seq<Article>, k: nat) returns (i: nat)
    requires k < |Unprocessed(rows)|
    ensures i < |rows| && !rows[i].processed && rows[i].id == Unprocessed(rows)[k] && k == |Unprocessed(rows[..i])|
  {
    var n := |rows| - 1;
    if k < |Unprocessed(rows[..n])| {
      i := QueueRow(rows[..n], k);
      assert rows[..n][..i] == rows[..i];
    } else {
      i := n;
    }
  }

  // ---------- the counters ----------

  ghost function IdsWhere(ids: seq<nat>, p: nat -> bool): set<nat> {
    set id | id in ids && p(id)
  }

  lemma {:induction false} SetGrows(ids: seq<nat>, p: nat -> bool)
    requires ids != [] && Distinct(ids)
    ensures |IdsWhere(ids, p)| == |IdsWhere(ids[..|ids| - 1], p)| + (if p(ids[|ids| - 1]) then 1 else 0)
  {
    var n := |ids| - 1;
    assert ids == ids[..n] + [ids[n]];
    assert ids[n] !in IdsWhere(ids[..n], p);
    assert IdsWhere(ids, p) == IdsWhere(ids[..n], p) + (if p(ids[n]) then {ids[n]} else {});
  }

  lemma {:induction false} CountIs(env: Env, ids: seq<nat>, o: Outcome, p: nat -> bool)
    requires Distinct(ids) && forall id: nat :: p(id) <==> OutcomeOf(env, id) == o
    ensures Count(env, ids, o) == |IdsWhere(ids, p)|
  {
    hide OutcomeOf, IdsWhere;
    if ids == [] {
      NoIds(p);
    } else {
      CountIs(env, ids[..|ids| - 1], o, p);
      SetGrows(ids, p);
    }
  }

  lemma {:induction false} NoIds(p: nat -> bool)
    ensures IdsWhere([], p) == {}
  {
  }

  lemma {:induction false} StuckCount(env: Env, ids: seq<nat>)
    requires Distinct(ids)
    ensures |Stuck(env, ids)| == |IdsWhere(ids, env.markFails)|
  {
    hide IdsWhere;
    if ids == [] {
      NoIds(env.markFails);
    } else {
      StuckCount(env, ids[..|ids| - 1]);
      SetGrows(ids, env.markFails);
    }
  }

  predicate RejectedArticle(env: Env, id: nat) {
    BelowThreshold(env, id) || (env.extract(id).Some? && Extracted(env, id, env.extract(id).value)
                                && env.extract(id).value.rejectedByGate)
  }

  /** The article's extraction is to be stored as a rumour, or would be if it named both. */
  predicate Accepted(env: Env, id: nat) {
    env.extract(id).Some? && Extracted(env, id, env.extract(id).value) && !env.extract(id).value.rejectedByGate
  }

  predicate IncompleteArticle(env: Env, id: nat) {
    Accepted(env, id) && NamesMissing(env.extract(id).value)
  }

  /** The article's rumour could not be stored. */
  predicate UnstoredArticle(env: Env, id: nat) {
    Accepted(env, id) && !NamesMissing(env.extract(id).value) && env.storeFails(id)
  }

  predicate StoredArticle(env: Env, id: nat) {
    Accepted(env, id) && !NamesMissing(env.extract(id).value) && !env.storeFails(id)
  }

  /** Each counter of a run is the number of attempted articles it stands for. */
  lemma {:induction false} CountersAre(
    env: Env, st: ExtractStats, articles: seq<Article>, rows: seq<Article>, ids: seq<nat>)
    requires Progress(env, articles, rows, st.total) && ids == Unprocessed(rows)[..st.total]
    requires st.Counts(env, ids)
    ensures st.total == |ids| && st.extracted == st.total - st.failed
    ensures st.failed == |IdsWhere(ids, (id: nat) => FailedToExtract(env, id))|
    ensures st.rejected == |IdsWhere(ids, (id: nat) => RejectedArticle(env, id))|
    ensures st.incomplete == |IdsWhere(ids, (id: nat) => IncompleteArticle(env, id))|
    ensures st.upsertErrors == |IdsWhere(ids, (id: nat) => UnstoredArticle(env, id))|
    ensures st.clustered == |IdsWhere(ids, (id: nat) => StoredArticle(env, id))|
    ensures st.unmarked == |IdsWhere(ids, env.markFails)|
  {
    hide Count, Stuck, IdsWhere, Unprocessed, Marked;
    UnprocessedDistinct(rows);
    CountIs(env, ids, ExtractFailed, (id: nat) => FailedToExtract(env, id));
    CountIs(env, ids, Rejected, (id: nat) => RejectedArticle(env, id));
    CountIs(env, ids, Incomplete, (id: nat) => IncompleteArticle(env, id));
    CountIs(env, ids, UpsertFailed, (id: nat) => UnstoredArticle(env, id));
    CountIs(env, ids, Clustered, (id: nat) => StoredArticle(env, id));
    StuckCount(env, ids);
  }
}

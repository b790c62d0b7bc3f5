/** The one-off clean-up: re-judge every old rumour's articles and delete the rumours none of
    whose articles passes (cmd/reclassify/main.go, internal/store/reclassify.go). */
module Reclassify {
  import opened Wrappers

  // ---------- the tables ----------

  datatype RumourRow = RumourRow(id: nat, createdAt: int)

  datatype EventRow = EventRow(rumourId: nat, articleId: nat, createdAt: int)

  /** A comments or likes row: all that matters is the rumour it hangs on. */
  datatype Dependent = Dependent(id: nat, rumourId: nat)

  datatype Tables = Tables(
    rumours: set<RumourRow>, events: set<EventRow>, articles: set<nat>, comments: set<Dependent>, likes: set<Dependent>)

  /** Primary and foreign keys, and the unique index on (rumour_id, article_id). */
  ghost predicate ValidTables(t: Tables) {
    && (forall r, r' :: r in t.rumours && r' in t.rumours && r.id == r'.id ==> r == r')
    && (forall e :: e in t.events ==> e.articleId in t.articles && exists r :: r in t.rumours && r.id == e.rumourId)
    && (forall e, e' :: e in t.events && e' in t.events && e.rumourId == e'.rumourId && e.articleId == e'.articleId ==> e == e')
    && (forall c :: c in t.comments ==> exists r :: r in t.rumours && r.id == c.rumourId)
    && (forall l :: l in t.likes ==> exists r :: r in t.rumours && r.id == l.rumourId)
  }

  // ---------- the join and its grouping ----------

  /** One row of rumours LEFT JOIN rumour_events; no event when the rumour has none. */
  datatype JoinRow = JoinRow(rumour: RumourRow, event: Option<EventRow>)

  ghost predicate Joined(t: Tables, before: int, row: JoinRow) {
    && row.rumour in t.rumours && row.rumour.createdAt < before
    && match row.event
       case Some(e) => e in t.events && e.rumourId == row.rumour.id
       case None => forall e :: e in t.events ==> e.rumourId != row.rumour.id
  }

  /** The rumours' part of the order: r.created_at, r.id. */
  predicate InOrder(a: RumourRow, b: RumourRow) {
    a.createdAt < b.createdAt || (a.createdAt == b.createdAt && a.id <= b.id)
  }

  /** The events' part of the order: e.created_at, a.id, a missing event last. */
  predicate EventInOrder(a: Option<EventRow>, b: Option<EventRow>) {
    match (a, b)
    case (_, None) => true
    case (None, Some(_)) => false
    case (Some(x), Some(y)) => x.createdAt < y.createdAt || (x.createdAt == y.createdAt && x.articleId <= y.articleId)
  }

  /** ORDER BY r.created_at, r.id, e.created_at, a.id. */
  predicate RowInOrder(a: JoinRow, b: JoinRow) {
    InOrder(a.rumour, b.rumour) && (InOrder(b.rumour, a.rumour) ==> EventInOrder(a.event, b.event))
  }

  /** rows is the result of the query: every joined row once, in order. */
  ghost predicate QueryResult(t: Tables, before: int, rows: seq<JoinRow>) {
    && (forall row :: row in rows <==> Joined(t, before, row))
    && (forall i, j :: 0 <= i < j < |rows| ==> rows[i] != rows[j] && RowInOrder(rows[i], rows[j]))
  }

  /** A rumour and the articles linked to it. */
  datatype Group = Group(id: nat, articles: seq<nat>)

  /** Start a new group when the rumour changes, then add the row's article to the last group. */
  function GroupRows(rows: seq<JoinRow>): seq<Group> {
    if rows == [] then []
    else
      var groups := GroupRows(rows[..|rows| - 1]);
      var row := rows[|rows| - 1];
      var started :=
        if groups == [] || groups[|groups| - 1].id != row.rumour.id then groups + [Group(row.rumour.id, [])] else groups;
      var last := |started| - 1;
      match row.event
      case None => started
      case Some(e) => started[last := Group(started[last].id, started[last].articles + [e.articleId])]
  }

  /** The loop of ListRumoursForReclassify over the query's rows. */
  method ListRumoursForReclassify(rows: seq<JoinRow>) returns (groups: seq<Group>)
    ensures groups == GroupRows(rows)
  {
    groups := [];
    for i := 0 to |rows|
      invariant groups == GroupRows(rows[..i])
    {
      assert rows[..i + 1][..i] == rows[..i];
      var row := rows[i];
      if |groups| == 0 || groups[|groups| - 1].id != row.rumour.id {
        groups := groups + [Group(row.rumour.id, [])];
      }
      if row.event.Some? {
        var last := |groups| - 1;
        groups := groups[last := groups[last].(articles := groups[last].articles + [row.event.value.articleId])];
      }
    }
    assert rows[..|rows|] == rows;
  }

  /** The row links this article to this rumour. */
  predicate Links(row: JoinRow, id: nat, article: nat) {
    row.rumour.id == id && row.event.Some? && row.event.value.articleId == article
  }

  ghost predicate HasGroup(groups: seq<Group>, id: nat) {
    exists g :: 0 <= g < |groups| && groups[g].id == id
  }

  ghost predicate HasRow(rows: seq<JoinRow>, id: nat) {
    exists k :: 0 <= k < |rows| && rows[k].rumour.id == id
  }

  ghost predicate Linked(rows: seq<JoinRow>, id: nat, article: nat) {
    exists k :: 0 <= k < |rows| && Links(rows[k], id, article)
  }

  ghost predicate DistinctGroups(groups: seq<Group>) {
    forall i, j :: 0 <= i < j < |groups| ==> groups[i].id != groups[j].id
  }

  /** The groups hold each rumour of the rows once, with exactly the articles the rows link to it. */
  ghost predicate Groups(rows: seq<JoinRow>, groups: seq<Group>) {
    && DistinctGroups(groups)
    && (forall id :: HasGroup(groups, id) <==> HasRow(rows, id))
    && (forall g, a :: 0 <= g < |groups| ==> (a in groups[g].articles <==> Linked(rows, groups[g].id, a)))
    && (rows != [] ==> groups != [] && groups[|groups| - 1].id == rows[|rows| - 1].rumour.id)
  }

  /** Rows in the order of the query, with one rumour per id. */
  ghost predicate Ordered(rows: seq<JoinRow>) {
    && (forall i, j :: 0 <= i < j < |rows| ==> InOrder(rows[i].rumour, rows[j].rumour))
    && (forall i, j :: 0 <= i < j < |rows| && rows[i].rumour.id == rows[j].rumour.id ==> rows[i].rumour == rows[j].rumour)
  }

  /** If a rumour of earlier rows comes up again, it is the last row's. */
  lemma {:induction false} RowsOfOneRumourTogether(rows: seq<JoinRow>, row: JoinRow)
    requires Ordered(rows + [row]) && HasRow(rows, row.rumour.id)
    ensures rows[|rows| - 1].rumour.id == row.rumour.id
  {
    var rows' := rows + [row];
    var n := |rows|;
    var k :| 0 <= k < n && rows[k].rumour.id == row.rumour.id;
    assert rows'[k] == rows[k] && rows'[n - 1] == rows[n - 1] && rows'[n] == row;
    assert k < n - 1 ==> InOrder(rows'[k].rumour, rows'[n - 1].rumour);
    assert InOrder(rows'[n - 1].rumour, rows'[n].rumour);
    assert rows'[k].rumour == rows'[n].rumour;
  }

  lemma {:induction false} OneMoreRow(rows: seq<JoinRow>, row: JoinRow)
    ensures forall id :: HasRow(rows + [row], id) <==> HasRow(rows, id) || row.rumour.id == id
    ensures forall id, a :: Linked(rows + [row], id, a) <==> Linked(rows, id, a) || Links(row, id, a)
    ensures forall id, a :: Linked(rows, id, a) ==> HasRow(rows, id)
  {
    hide Links;
    var rows' := rows + [row];
    assert rows'[|rows|] == row;
    assert forall k :: 0 <= k < |rows| ==> rows'[k] == rows[k];
    forall id, a | Linked(rows, id, a) ensures HasRow(rows, id) {
      var k :| 0 <= k < |rows| && Links(rows[k], id, a);
      LinksItsRumour(rows[k], id, a);
    }
    forall id | HasRow(rows, id) ensures HasRow(rows', id) {
      var k :| 0 <= k < |rows| && rows[k].rumour.id == id;
      assert rows'[k].rumour.id == id;
    }
    forall id, a | Linked(rows, id, a) ensures Linked(rows', id, a) {
      var k :| 0 <= k < |rows| && Links(rows[k], id, a);
      assert Links(rows'[k], id, a);
    }
  }

  lemma {:induction false} LinksItsRumour(row: JoinRow, id: nat, a: nat)
    requires Links(row, id, a)
    ensures row.rumour.id == id
  {
  }

  /** A group is started for the row's rumour if it has none. */
  lemma {:induction false} GroupStarted(rows: seq<JoinRow>, groups: seq<Group>, row: JoinRow)
    requires Ordered(rows + [row]) && Groups(rows, groups)
    ensures
      var id := row.rumour.id;
      if groups == [] || groups[|groups| - 1].id != id then
        !HasRow(rows, id) && DistinctGroups(groups + [Group(id, [])])
        && forall x :: HasGroup(groups + [Group(id, [])], x) <==> HasRow(rows, x) || x == id
      else HasRow(rows, id)
  {
    hide Linked, Ordered;
    var id := row.rumour.id;
    if groups == [] || groups[|groups| - 1].id != id {
      if HasRow(rows, id) {
        RowsOfOneRumourTogether(rows, row);
      }
      var started := groups + [Group(id, [])];
      assert started[|groups|].id == id;
      assert forall g :: 0 <= g < |groups| ==> started[g] == groups[g];
      forall x | HasGroup(groups, x) ensures HasGroup(started, x) {
        var g :| 0 <= g < |groups| && groups[g].id == x;
        assert started[g].id == x;
      }
      forall g | 0 <= g < |groups| ensures groups[g].id != id {
        assert HasGroup(groups, groups[g].id);
      }
    } else {
      assert HasGroup(groups, id);
    }
  }

  /** Putting articles into the last group does not change which groups there are. */
  lemma {:induction false} SameGroups(started: seq<Group>, after: seq<Group>)
    requires |after| == |started| && forall g :: 0 <= g < |started| ==> after[g].id == started[g].id
    ensures DistinctGroups(started) ==> DistinctGroups(after)
    ensures forall x :: HasGroup(started, x) <==> HasGroup(after, x)
  {
    forall x | HasGroup(started, x) ensures HasGroup(after, x) {
      var g :| 0 <= g < |started| && started[g].id == x;
      assert after[g].id == x;
    }
    forall x | HasGroup(after, x) ensures HasGroup(started, x) {
      var g :| 0 <= g < |after| && after[g].id == x;
      assert started[g].id == x;
    }
  }

  /** The last group takes the row's article; the others keep theirs. */
  lemma {:induction false} ArticlesStep(rows: seq<JoinRow>, row: JoinRow, started: seq<Group>, after: seq<Group>, g: nat)
    requires g < |started| == |after| && DistinctGroups(started) && started[|started| - 1].id == row.rumour.id
    requires after == match row.event
      case None => started
      case Some(e) =>
        var last := |started| - 1;
        started[last := Group(started[last].id, started[last].articles + [e.articleId])]
    requires forall a :: a in started[g].articles <==> Linked(rows, started[g].id, a)
    ensures forall a :: a in after[g].articles <==> Linked(rows + [row], after[g].id, a)
  {
    hide Linked, DistinctGroups, HasRow;
    OneMoreRow(rows, row);
    if g < |started| - 1 {
      OtherGroup(started, g);
    }
  }

  lemma {:induction false} GroupsStep(rows: seq<JoinRow>, row: JoinRow)
    requires Ordered(rows + [row]) && Groups(rows, GroupRows(rows))
    ensures Groups(rows + [row], GroupRows(rows + [row]))
  {
    hide HasRow, HasGroup, Linked, Ordered, DistinctGroups, Links;
    var groups, id := GroupRows(rows), row.rumour.id;
    assert (rows + [row])[..|rows|] == rows;
    var started := if groups == [] || groups[|groups| - 1].id != id then groups + [Group(id, [])] else groups;
    var after := GroupRows(rows + [row]);
    OneMoreRow(rows, row);
    GroupStarted(rows, groups, row);
    SameGroups(started, after);
    forall g | 0 <= g < |after| ensures forall a :: a in after[g].articles <==> Linked(rows + [row], after[g].id, a) {
      ArticlesStep(rows, row, started, after, g);
    }
  }

  lemma {:induction false} OtherGroup(started: seq<Group>, g: nat)
    requires DistinctGroups(started) && g < |started| - 1
    ensures started[g].id != started[|started| - 1].id
  {
  }

  lemma {:induction false} GroupRowsGroups(rows: seq<JoinRow>)
    requires Ordered(rows)
    ensures Groups(rows, GroupRows(rows))
  {
    hide Groups;
    if rows == [] {
      NoRowsNoGroups();
    } else {
      var n := |rows| - 1;
      assert rows == rows[..n] + [rows[n]];
      GroupRowsGroups(rows[..n]);
      GroupsStep(rows[..n], rows[n]);
    }
  }

  lemma {:induction false} NoRowsNoGroups()
    ensures Groups([], [])
  {
  }

  // ---------- grouping keeps the order ----------

  /** The rumour and the article of every row that has an event, in order. */
  function RowPairs(rows: seq<JoinRow>): seq<(nat, nat)> {
    if rows == [] then []
    else
      var row := rows[|rows| - 1];
      RowPairs(rows[..|rows| - 1]) + (if row.event.Some? then [(row.rumour.id, row.event.value.articleId)] else [])
  }

  function WithArticles(id: nat, articles: seq<nat>): (pairs: seq<(nat, nat)>)
    ensures |pairs| == |articles|
  {
    seq(|articles|, i requires 0 <= i < |articles| => (id, articles[i]))
  }

  /** The groups, written out again article by article. */
  function Ungrouped(groups: seq<Group>): seq<(nat, nat)> {
    if groups == [] then []
    else
      var g := groups[|groups| - 1];
      Ungrouped(groups[..|groups| - 1]) + WithArticles(g.id, g.articles)
  }

  lemma {:induction false} OneMoreArticleOut(groups: seq<Group>, a: nat)
    requires groups != []
    ensures
      var last := |groups| - 1;
      Ungrouped(groups[last := Group(groups[last].id, groups[last].articles + [a])]) ==
        Ungrouped(groups) + [(groups[last].id, a)]
  {
    var last := |groups| - 1;
    var g := groups[last];
    var after := groups[last := Group(g.id, g.articles + [a])];
    assert after[..last] == groups[..last];
    assert WithArticles(g.id, g.articles + [a]) == WithArticles(g.id, g.articles) + [(g.id, a)];
  }

  lemma {:induction false} NewGroupOut(groups: seq<Group>, id: nat)
    ensures Ungrouped(groups + [Group(id, [])]) == Ungrouped(groups)
  {
    var after := groups + [Group(id, [])];
    assert after[..|groups|] == groups;
  }

  /** Writing the groups out again gives the rows' rumours and articles, in the rows' order. */
  lemma {:induction false} GroupingKeepsOrder(rows: seq<JoinRow>)
    ensures Ungrouped(GroupRows(rows)) == RowPairs(rows)
  {
    if rows != [] {
      var n := |rows| - 1;
      GroupingKeepsOrder(rows[..n]);
      var groups, row := GroupRows(rows[..n]), rows[n];
      hide Ungrouped;
      NewGroupOut(groups, row.rumour.id);
      var started :=
        if groups == [] || groups[|groups| - 1].id != row.rumour.id then groups + [Group(row.rumour.id, [])] else groups;
      if row.event.Some? {
        OneMoreArticleOut(started, row.event.value.articleId);
      }
    }
  }

  /** The query lists the oldest rumours first, and of one rumour the oldest events first; ties go by id. */
  lemma {:induction false} OldestFirst(t: Tables, before: int, rows: seq<JoinRow>, i: nat, j: nat)
    requires QueryResult(t, before, rows) && i < j < |rows|
    ensures
      var a, b := rows[i].rumour, rows[j].rumour;
      && a.createdAt <= b.createdAt
      && (a.createdAt == b.createdAt ==> a.id <= b.id)
      && (a == b && rows[i].event.Some? && rows[j].event.Some? ==>
            var e, f := rows[i].event.value, rows[j].event.value;
            e.createdAt <= f.createdAt && (e.createdAt == f.createdAt ==> e.articleId <= f.articleId))
  {
    assert RowInOrder(rows[i], rows[j]);
  }

  // ---------- the groups are the tables' ----------

  /** The article is on the rumour's timeline. */
  ghost predicate OnTimeline(t: Tables, id: nat, article: nat) {
    exists e :: e in t.events && e.rumourId == id && e.articleId == article
  }

  /** A rumour with this id was created before the cutoff. */
  ghost predicate Old(t: Tables, before: int, id: nat) {
    exists r :: r in t.rumours && r.id == id && r.createdAt < before
  }

  /** Each rumour before the cutoff once, with exactly the articles on its timeline. */
  ghost predicate GroupsTables(t: Tables, before: int, groups: seq<Group>) {
    && DistinctGroups(groups)
    && (forall id :: HasGroup(groups, id) <==> Old(t, before, id))
    && (forall g, a :: 0 <= g < |groups| ==> (a in groups[g].articles <==> OnTimeline(t, groups[g].id, a)))
  }

  lemma {:induction false} QueryIsOrdered(t: Tables, before: int, rows: seq<JoinRow>)
    requires ValidTables(t) && QueryResult(t, before, rows)
    ensures Ordered(rows)
  {
    hide InOrder;
    assert forall k :: 0 <= k < |rows| ==> Joined(t, before, rows[k]);
  }

  lemma {:induction false} QueryHasRumours(t: Tables, before: int, rows: seq<JoinRow>, id: nat)
    requires QueryResult(t, before, rows)
    ensures HasRow(rows, id) <==> Old(t, before, id)
  {
    hide InOrder;
    if HasRow(rows, id) {
      var k :| 0 <= k < |rows| && rows[k].rumour.id == id;
      assert Joined(t, before, rows[k]);
    }
    if Old(t, before, id) {
      var r :| r in t.rumours && r.id == id && r.createdAt < before;
      var row := JoinedRow(t, before, r);
      var k :| 0 <= k < |rows| && rows[k] == row;
    }
  }

  lemma {:induction false} JoinedRow(t: Tables, before: int, r: RumourRow) returns (row: JoinRow)
    requires r in t.rumours && r.createdAt < before
    ensures Joined(t, before, row) && row.rumour == r
  {
    if e :| e in t.events && e.rumourId == r.id {
      row := JoinRow(r, Some(e));
    } else {
      row := JoinRow(r, None);
    }
  }

  lemma {:induction false} QueryLinksArticles(t: Tables, before: int, rows: seq<JoinRow>, id: nat, a: nat)
    requires QueryResult(t, before, rows) && HasRow(rows, id)
    ensures Linked(rows, id, a) <==> OnTimeline(t, id, a)
  {
    hide InOrder;
    if Linked(rows, id, a) {
      var k :| 0 <= k < |rows| && Links(rows[k], id, a);
      assert Joined(t, before, rows[k]);
    }
    if OnTimeline(t, id, a) {
      var e :| e in t.events && e.rumourId == id && e.articleId == a;
      var k :| 0 <= k < |rows| && rows[k].rumour.id == id;
      assert Joined(t, before, rows[k]);
      var row := JoinRow(rows[k].rumour, Some(e));
      assert Joined(t, before, row);
      var l :| 0 <= l < |rows| && rows[l] == row;
      assert Links(rows[l], id, a);
    }
  }

  /** Grouping the query's rows yields each rumour before the cutoff once, with exactly its articles. */
  lemma {:induction false} GroupingIsComplete(t: Tables, before: int, rows: seq<JoinRow>)
    requires ValidTables(t) && QueryResult(t, before, rows)
    ensures GroupsTables(t, before, GroupRows(rows))
  {
    hide HasRow, Linked, OnTimeline, Old, QueryResult, ValidTables, Ordered, DistinctGroups, GroupRows;
    var groups := GroupRows(rows);
    QueryIsOrdered(t, before, rows);
    GroupRowsGroups(rows);
    forall id ensures HasRow(rows, id) <==> Old(t, before, id) {
      QueryHasRumours(t, before, rows, id);
    }
    forall g, a | 0 <= g < |groups| ensures a in groups[g].articles <==> OnTimeline(t, groups[g].id, a) {
      assert HasGroup(groups, groups[g].id);
      QueryLinksArticles(t, before, rows, groups[g].id, a);
    }
  }

  // ---------- the verdicts ----------

  /** The classifier's answers: the article asked about and the number of the call. A call may fail. */
  type Classifier = (nat, nat) -> Option<real>

  /** Every one of the articles is known to be below the threshold. */
  predicate AllBelow(articles: seq<nat>, probabilities: map<nat, real>, threshold: real) {
    forall k :: 0 <= k < |articles| ==> articles[k] in probabilities && probabilities[articles[k]] < threshold
  }

  predicate Doomed(g: Group, probabilities: map<nat, real>, threshold: real) {
    g.articles != [] && AllBelow(g.articles, probabilities, threshold)
  }

  /** The rumours to delete, in order. */
  function DoomedIds(groups: seq<Group>, probabilities: map<nat, real>, threshold: real): seq<nat> {
    if groups == [] then []
    else
      var g := groups[|groups| - 1];
      DoomedIds(groups[..|groups| - 1], probabilities, threshold)
      + (if Doomed(g, probabilities, threshold) then [g.id] else [])
  }

  function WithoutArticles(groups: seq<Group>): nat {
    if groups == [] then 0
    else WithoutArticles(groups[..|groups| - 1]) + (if groups[|groups| - 1].articles == [] then 1 else 0)
  }

  /** Which of the first n groups have no articles. */
  ghost function Empty(groups: seq<Group>, n: nat): set<nat>
    requires n <= |groups|
  {
    set g: nat | g < n && groups[g].articles == []
  }

  /** The rumours kept for want of articles are those with none. */
  lemma {:induction false} WithoutArticlesAre(groups: seq<Group>)
    ensures WithoutArticles(groups) == |Empty(groups, |groups|)|
  {
    if groups != [] {
      var n := |groups| - 1;
      WithoutArticlesAre(groups[..n]);
      assert Empty(groups[..n], n) == Empty(groups, n);
      OneMoreGroup(groups, n);
    }
  }

  lemma {:induction false} OneMoreGroup(groups: seq<Group>, n: nat)
    requires n < |groups|
    ensures |Empty(groups, n + 1)| == |Empty(groups, n)| + (if groups[n].articles == [] then 1 else 0)
  {
    assert n !in Empty(groups, n);
    assert Empty(groups, n + 1) == Empty(groups, n) + (if groups[n].articles == [] then {n} else {});
  }

  /** Every article of the groups has a verdict. */
  ghost predicate Judged(groups: seq<Group>, probabilities: map<nat, real>) {
    forall g, a :: 0 <= g < |groups| && a in groups[g].articles ==> a in probabilities
  }

  /** The verdicts are the answers of these calls, one call per article. */
  ghost predicate OneCallEach(classify: Classifier, asked: seq<nat>, probabilities: map<nat, real>) {
    && (forall i, j :: 0 <= i < j < |asked| ==> asked[i] != asked[j])
    && (forall a :: a in probabilities <==> a in asked)
    && (forall k :: 0 <= k < |asked| ==> asked[k] in probabilities && classify(asked[k], k) == Some(probabilities[asked[k]]))
  }

  /** Every one of the articles has a verdict. */
  ghost predicate Known(articles: seq<nat>, probabilities: map<nat, real>) {
    forall a :: a in articles ==> a in probabilities
  }

  /** A later verdict on another article does not change one already reached. */
  ghost predicate Extends(before: map<nat, real>, after: map<nat, real>) {
    forall a :: a in before ==> a in after && after[a] == before[a]
  }

  lemma {:induction false} DoomedKept(groups: seq<Group>, before: map<nat, real>, after: map<nat, real>, threshold: real)
    requires Judged(groups, before) && Extends(before, after)
    ensures DoomedIds(groups, after, threshold) == DoomedIds(groups, before, threshold)
  {
    if groups != [] {
      var n := |groups| - 1;
      assert forall g :: 0 <= g < n ==> groups[..n][g] == groups[g];
      DoomedKept(groups[..n], before, after, threshold);
      assert forall a :: a in groups[n].articles ==> a in before && before[a] == after[a];
      assert AllBelow(groups[n].articles, before, threshold) <==> AllBelow(groups[n].articles, after, threshold);
    }
  }

  datatype Verdicts = Verdicts(toDelete: seq<nat>, kept: nat, noArticles: nat, probabilities: map<nat, real>)

  /** The loop over one rumour's articles: ask about those not asked about before. */
  method JudgeArticles(
    articles: seq<nat>, threshold: real, classify: Classifier, probabilities0: map<nat, real>, ghost asked0: seq<nat>)
    returns (ok: bool, allBelow: bool, probabilities: map<nat, real>, ghost asked: seq<nat>, ghost failed: nat)
    requires OneCallEach(classify, asked0, probabilities0) && |probabilities0| == |asked0|
    ensures OneCallEach(classify, asked, probabilities) && |probabilities| == |asked|
    ensures forall a :: a in asked ==> a in asked0 || a in articles
    ensures ok ==> Extends(probabilities0, probabilities) && Known(articles, probabilities)
    ensures ok ==> (allBelow <==> AllBelow(articles, probabilities, threshold))
    ensures !ok ==> failed in articles && failed !in probabilities && classify(failed, |asked|) == None
  {
    hide OneCallEach, Extends, Known, AllBelow;
    probabilities, asked, allBelow, ok, failed := probabilities0, asked0, true, true, 0;
    NothingAskedYet(articles, threshold, probabilities0);
    for i := 0 to |articles|
      invariant OneCallEach(classify, asked, probabilities) && |probabilities| == |asked|
      invariant Extends(probabilities0, probabilities) && Known(articles[..i], probabilities)
      invariant allBelow <==> AllBelow(articles[..i], probabilities, threshold)
      invariant forall a :: a in asked ==> a in asked0 || a in articles
    {
      var a := articles[i];
      var p;
      ghost var before := probabilities;
      if a in probabilities {
        p := probabilities[a];
      } else {
        var answer := classify(a, |probabilities|);
        if answer.None? {
          ok, failed := false, a;
          return;
        }
        p := answer.value;
        OneMoreCall(classify, asked, probabilities, a, p);
        probabilities := probabilities[a := p];
        asked := asked + [a];
      }
      OneMoreArticle(articles, i, probabilities0, before, probabilities, threshold);
      if p >= threshold {
        allBelow := false;
      }
    }
    assert articles[..|articles|] == articles;
  }

  lemma {:induction false} NothingAskedYet(articles: seq<nat>, threshold: real, probabilities: map<nat, real>)
    ensures Extends(probabilities, probabilities) && Known(articles[..0], probabilities)
    ensures AllBelow(articles[..0], probabilities, threshold)
  {
  }

  lemma {:induction false} OneMoreArticle(
    articles: seq<nat>, i: nat, start: map<nat, real>, before: map<nat, real>, after: map<nat, real>, threshold: real)
    requires i < |articles| && Extends(start, before) && Known(articles[..i], before)
    requires articles[i] in after
    requires after == before || (articles[i] !in before && after == before[articles[i] := after[articles[i]]])
    ensures Extends(start, after) && Known(articles[..i + 1], after)
    ensures AllBelow(articles[..i + 1], after, threshold) <==>
      AllBelow(articles[..i], before, threshold) && after[articles[i]] < threshold
  {
    var taken, taken' := articles[..i], articles[..i + 1];
    assert taken' == taken + [articles[i]];
    assert taken'[i] == articles[i];
    assert forall k :: 0 <= k < i ==> taken'[k] == taken[k] && taken[k] in before && before[taken[k]] == after[taken[k]];
  }

  lemma {:induction false} OneMoreCall(classify: Classifier, asked: seq<nat>, probabilities: map<nat, real>, a: nat, p: real)
    requires OneCallEach(classify, asked, probabilities) && |probabilities| == |asked|
    requires a !in probabilities && classify(a, |probabilities|) == Some(p)
    ensures OneCallEach(classify, asked + [a], probabilities[a := p]) && |probabilities[a := p]| == |asked + [a]|
    ensures Extends(probabilities, probabilities[a := p])
  {
    var asked', probabilities' := asked + [a], probabilities[a := p];
    assert asked'[|asked|] == a;
    assert forall k :: 0 <= k < |asked| ==> asked'[k] == asked[k];
  }

  lemma {:induction false} JudgedStep(groups: seq<Group>, i: nat, before: map<nat, real>, after: map<nat, real>, threshold: real)
    requires i < |groups| && Judged(groups[..i], before) && Extends(before, after)
    requires forall a :: a in groups[i].articles ==> a in after
    ensures Judged(groups[..i + 1], after)
    ensures DoomedIds(groups[..i + 1], after, threshold) ==
      DoomedIds(groups[..i], before, threshold) + (if Doomed(groups[i], after, threshold) then [groups[i].id] else [])
    ensures WithoutArticles(groups[..i + 1]) == WithoutArticles(groups[..i]) + (if groups[i].articles == [] then 1 else 0)
  {
    hide Doomed;
    assert groups[..i + 1][..i] == groups[..i];
    assert forall g :: 0 <= g < i ==> groups[..i + 1][g] == groups[..i][g];
    DoomedKept(groups[..i], before, after, threshold);
  }

  /** The article is one of some group's. */
  ghost predicate Listed(groups: seq<Group>, a: nat) {
    exists g :: 0 <= g < |groups| && a in groups[g].articles
  }

  lemma {:induction false} AskedAreKeys(classify: Classifier, asked: seq<nat>, probabilities: map<nat, real>)
    requires OneCallEach(classify, asked, probabilities)
    ensures forall a :: a in asked <==> a in probabilities
  {
  }

  /** The loop over the rumours: the verdicts, or nothing once a classification fails. */
  method Judge(groups: seq<Group>, threshold: real, classify: Classifier)
    returns (verdicts: Option<Verdicts>, ghost asked: seq<nat>, ghost failed: nat)
    ensures forall a :: a in asked ==> Listed(groups, a)
    ensures verdicts.Some? ==>
      var v := verdicts.value;
      && Judged(groups, v.probabilities)
      && v.toDelete == DoomedIds(groups, v.probabilities, threshold)
      && v.noArticles == WithoutArticles(groups)
      && v.kept + v.noArticles + |v.toDelete| == |groups|
    ensures verdicts.Some? ==> OneCallEach(classify, asked, verdicts.value.probabilities)
    ensures verdicts.None? ==> Listed(groups, failed) && failed !in asked && classify(failed, |asked|) == None
  {
    hide OneCallEach, AllBelow, Judged, DoomedIds, WithoutArticles;
    var probabilities: map<nat, real> := map[];
    var toDelete: seq<nat> := [];
    var kept, noArticles := 0, 0;
    asked, failed := [], 0;
    NothingJudged(groups, threshold, classify);
    for i := 0 to |groups|
      invariant OneCallEach(classify, asked, probabilities) && |probabilities| == |asked|
      invariant Judged(groups[..i], probabilities)
      invariant toDelete == DoomedIds(groups[..i], probabilities, threshold)
      invariant noArticles == WithoutArticles(groups[..i]) && kept + noArticles + |toDelete| == i
      invariant forall a :: a in asked ==> Listed(groups, a)
    {
      var r := groups[i];
      if |r.articles| == 0 {
        JudgedStep(groups, i, probabilities, probabilities, threshold);
        noArticles := noArticles + 1;
        continue;
      }
      ghost var before := probabilities;
      var ok, allBelow;
      ok, allBelow, probabilities, asked, failed := JudgeArticles(r.articles, threshold, classify, probabilities, asked);
      AskedAreKeys(classify, asked, probabilities);
      if !ok {
        return None, asked, failed;
      }
      JudgedStep(groups, i, before, probabilities, threshold);
      if allBelow {
        toDelete := toDelete + [r.id];
      } else {
        kept := kept + 1;
      }
    }
    assert groups[..|groups|] == groups;
    return Some(Verdicts(toDelete, kept, noArticles, probabilities)), asked, failed;
  }

  lemma {:induction false} NothingJudged(groups: seq<Group>, threshold: real, classify: Classifier)
    ensures Judged(groups[..0], map[]) && DoomedIds(groups[..0], map[], threshold) == [] && WithoutArticles(groups[..0]) == 0
    ensures OneCallEach(classify, [], map[])
  {
  }

  // ---------- the deletion ----------

  /** The rumour is old, has an article, and every one of its articles was judged below the threshold. */
  ghost predicate Condemned(t: Tables, before: int, probabilities: map<nat, real>, threshold: real, id: nat) {
    && Old(t, before, id)
    && (exists a :: OnTimeline(t, id, a))
    && (forall a :: OnTimeline(t, id, a) ==> a in probabilities && probabilities[a] < threshold)
  }

  lemma {:induction false} DoomedIs(groups: seq<Group>, probabilities: map<nat, real>, threshold: real, id: nat)
    ensures id in DoomedIds(groups, probabilities, threshold) <==>
      exists g :: 0 <= g < |groups| && groups[g].id == id && Doomed(groups[g], probabilities, threshold)
  {
    hide Doomed;
    if groups != [] {
      var n := |groups| - 1;
      DoomedIs(groups[..n], probabilities, threshold, id);
      assert forall g :: 0 <= g < n ==> groups[..n][g] == groups[g];
    }
  }

  lemma {:induction false} DoomedGroupIsCondemned(
    t: Tables, before: int, groups: seq<Group>, probabilities: map<nat, real>, threshold: real, g: nat)
    requires GroupsTables(t, before, groups) && Judged(groups, probabilities) && g < |groups|
    ensures Doomed(groups[g], probabilities, threshold) <==> Condemned(t, before, probabilities, threshold, groups[g].id)
  {
    hide OnTimeline, Old, DistinctGroups;
    var articles := groups[g].articles;
    assert HasGroup(groups, groups[g].id);
    if articles != [] {
      assert articles[0] in articles && OnTimeline(t, groups[g].id, articles[0]);
    }
  }

  /** The article is on the timeline of a rumour created before the cutoff. */
  ghost predicate OnOldTimeline(t: Tables, before: int, article: nat) {
    exists id :: Old(t, before, id) && OnTimeline(t, id, article)
  }

  lemma {:induction false} ListedOnTimeline(t: Tables, before: int, groups: seq<Group>, a: nat)
    requires GroupsTables(t, before, groups) && Listed(groups, a)
    ensures OnOldTimeline(t, before, a)
  {
    hide OnTimeline, Old, DistinctGroups;
    var g :| 0 <= g < |groups| && a in groups[g].articles;
    assert HasGroup(groups, groups[g].id);
  }

  /** The verdicts delete exactly the condemned rumours. */
  lemma {:induction false} VerdictsAreExact(
    t: Tables, before: int, groups: seq<Group>, probabilities: map<nat, real>, threshold: real, id: nat)
    requires GroupsTables(t, before, groups) && Judged(groups, probabilities)
    ensures id in DoomedIds(groups, probabilities, threshold) <==> Condemned(t, before, probabilities, threshold, id)
  {
    hide OnTimeline, Old, DistinctGroups, Doomed, Condemned, Judged;
    DoomedIs(groups, probabilities, threshold, id);
    if id in DoomedIds(groups, probabilities, threshold) {
      var g :| 0 <= g < |groups| && groups[g].id == id && Doomed(groups[g], probabilities, threshold);
      DoomedGroupIsCondemned(t, before, groups, probabilities, threshold, g);
    }
    if Condemned(t, before, probabilities, threshold, id) {
      CondemnedIsOld(t, before, probabilities, threshold, id);
      var g :| 0 <= g < |groups| && groups[g].id == id;
      DoomedGroupIsCondemned(t, before, groups, probabilities, threshold, g);
    }
  }

  lemma {:induction false} CondemnedIsOld(t: Tables, before: int, probabilities: map<nat, real>, threshold: real, id: nat)
    requires Condemned(t, before, probabilities, threshold, id)
    ensures Old(t, before, id)
  {
  }

  /** DELETE FROM rumours WHERE id = ANY(ids), with its cascades. */
  function Deleted(t: Tables, ids: seq<nat>): Tables {
    Tables(
      (set r | r in t.rumours && r.id !in ids),
      (set e | e in t.events && e.rumourId !in ids),
      t.articles,
      (set c | c in t.comments && c.rumourId !in ids),
      (set l | l in t.likes && l.rumourId !in ids))
  }

  /** A deletion leaves no event, comment or like behind and keeps every article. */
  lemma {:induction false} DeletionLeavesNothingDangling(t: Tables, ids: seq<nat>)
    requires ValidTables(t)
    ensures ValidTables(Deleted(t, ids)) && Deleted(t, ids).articles == t.articles
    ensures
      var t' := Deleted(t, ids);
      && (forall r :: r in t'.rumours <==> r in t.rumours && r.id !in ids)
      && (forall e :: e in t'.events <==> e in t.events && e.rumourId !in ids)
      && (forall c :: c in t'.comments <==> c in t.comments && c.rumourId !in ids)
      && (forall l :: l in t'.likes <==> l in t.likes && l.rumourId !in ids)
  {
    var t' := Deleted(t, ids);
    forall id | id !in ids && exists r :: r in t.rumours && r.id == id ensures exists r :: r in t'.rumours && r.id == id {
      var r :| r in t.rumours && r.id == id;
      assert r in t'.rumours;
    }
  }

  datatype RumourDeletion = RumourDeletion(rumours: nat, events: nat, comments: nat, likes: nat)

  function Counts(d: RumourDeletion): (int, int, int, int) {
    (d.rumours, d.events, d.comments, d.likes)
  }

  datatype Outcome = Failed | NothingToDelete | DryRun(counts: RumourDeletion) | Applied(counts: RumourDeletion)

  /** What a deletion takes away from each table. */
  function Removed(before: Tables, after: Tables): (int, int, int, int) {
    (|before.rumours| - |after.rumours|, |before.events| - |after.events|,
     |before.comments| - |after.comments|, |before.likes| - |after.likes|)
  }

  lemma {:induction false} RumoursCounted(t: Tables, ids: seq<nat>)
    ensures |(set r | r in t.rumours && r.id in ids)| == |t.rumours| - |Deleted(t, ids).rumours|
  {
    CountSplit(t.rumours, (set r | r in t.rumours && r.id in ids), Deleted(t, ids).rumours);
  }

  lemma {:induction false} EventsCounted(t: Tables, ids: seq<nat>)
    ensures |(set e | e in t.events && e.rumourId in ids)| == |t.events| - |Deleted(t, ids).events|
  {
    CountSplit(t.events, (set e | e in t.events && e.rumourId in ids), Deleted(t, ids).events);
  }

  lemma {:induction false} CommentsCounted(t: Tables, ids: seq<nat>)
    ensures |(set c | c in t.comments && c.rumourId in ids)| == |t.comments| - |Deleted(t, ids).comments|
  {
    CountSplit(t.comments, (set c | c in t.comments && c.rumourId in ids), Deleted(t, ids).comments);
  }

  lemma {:induction false} LikesCounted(t: Tables, ids: seq<nat>)
    ensures |(set l | l in t.likes && l.rumourId in ids)| == |t.likes| - |Deleted(t, ids).likes|
  {
    CountSplit(t.likes, (set l | l in t.likes && l.rumourId in ids), Deleted(t, ids).likes);
  }

  lemma {:induction false} CountSplit<T>(all: set<T>, gone: set<T>, left: set<T>)
    requires gone + left == all && gone !! left
    ensures |gone| == |all| - |left|
  {
  }

  lemma {:induction false} CountsMean(d: RumourDeletion, before: Tables, after: Tables)
    requires Counts(d) == Removed(before, after)
    ensures d.rumours == |before.rumours| - |after.rumours| && d.events == |before.events| - |after.events|
    ensures d.comments == |before.comments| - |after.comments| && d.likes == |before.likes| - |after.likes|
  {
  }

  lemma {:induction false} DeletedAsCounted(t: Tables, ids: seq<nat>, d: RumourDeletion)
    requires Counts(d) == Removed(t, Deleted(t, ids))
    ensures |(set r | r in t.rumours && r.id in ids)| == d.rumours
    ensures t.rumours - (set r | r in t.rumours && r.id in ids) == Deleted(t, ids).rumours
  {
    RumoursCounted(t, ids);
  }

  class ReclassifyStore {
    var rumours: set<RumourRow>
    var events: set<EventRow>
    var articles: set<nat>
    var comments: set<Dependent>
    var likes: set<Dependent>

    function State(): Tables
      reads this
    {
      Tables(rumours, events, articles, comments, likes)
    }

    constructor (t: Tables)
      ensures State() == t
    {
      rumours, events, articles, comments, likes := t.rumours, t.events, t.articles, t.comments, t.likes;
    }

    /** countRumourDependents. */
    method CountRumourDeletion(ids: seq<nat>) returns (d: RumourDeletion)
      ensures Counts(d) == Removed(State(), Deleted(State(), ids))
      ensures d.rumours == |set r | r in rumours && r.id in ids|
      ensures d.events == |set e | e in events && e.rumourId in ids|
      ensures d.comments == |set c | c in comments && c.rumourId in ids|
      ensures d.likes == |set l | l in likes && l.rumourId in ids|
    {
      hide Deleted;
      RumoursCounted(State(), ids);
      EventsCounted(State(), ids);
      CommentsCounted(State(), ids);
      LikesCounted(State(), ids);
      d := RumourDeletion(
        |(set r | r in rumours && r.id in ids)|,
        |(set e | e in events && e.rumourId in ids)|,
        |(set c | c in comments && c.rumourId in ids)|,
        |(set l | l in likes && l.rumourId in ids)|);
    }

    /** DeleteRumours: count and delete in one transaction. The rows deleted are as many as were
        counted, so the comparison that would roll back never does. */
    method DeleteRumours(ids: seq<nat>) returns (d: RumourDeletion)
      modifies this
      ensures State() == Deleted(old(State()), ids)
      ensures Counts(d) == Removed(old(State()), State())
      ensures d.rumours == |old(rumours)| - |rumours| && d.events == |old(events)| - |events|
      ensures d.comments == |old(comments)| - |comments| && d.likes == |old(likes)| - |likes|
    {
      hide Removed, Counts;
      d := CountRumourDeletion(ids);
      var deleted := set r | r in rumours && r.id in ids;
      DeletedAsCounted(State(), ids, d);
      assert |deleted| == d.rumours;
      rumours := rumours - deleted;
      events := set e | e in events && e.rumourId !in ids;
      comments := set c | c in comments && c.rumourId !in ids;
      likes := set l | l in likes && l.rumourId !in ids;
      CountsMean(d, old(State()), State());
    }

    /** Run the query: every joined row once, in order. */
    method QueryRows(before: int) returns (rows: seq<JoinRow>)
      ensures QueryResult(State(), before, rows)
    {
      hide RowInOrder, AllJoined, Joined, Leads;
      var todo := AllJoined(State(), before);
      JoinedRows(State(), before);
      rows := [];
      while todo != {}
        invariant forall row :: Joined(State(), before, row) <==> row in todo || row in rows
        invariant forall row :: row in todo ==> row !in rows
        invariant forall k, row :: 0 <= k < |rows| && row in todo ==> RowInOrder(rows[k], row)
        invariant forall i, j :: 0 <= i < j < |rows| ==> rows[i] != rows[j] && RowInOrder(rows[i], rows[j])
        decreases todo
      {
        ghost var first := SomeRowLeads(todo);
        var row :| row in todo && Leads(todo, row);
        LeaderIsFirst(todo, row);
        rows := rows + [row];
        todo := todo - {row};
      }
    }

    /** The whole run. A failed classification changes nothing and a dry run only counts; otherwise
        exactly the condemned rumours go, with everything that hangs on them. */
    method Run(apply: bool, before: int, threshold: real, classify: Classifier)
      returns (
        outcome: Outcome, ghost ids: seq<nat>, ghost asked: seq<nat>, ghost probabilities: map<nat, real>,
        ghost failed: nat)
      requires ValidTables(State())
      modifies this
      ensures ValidTables(State())
      ensures forall a :: a in asked ==> OnOldTimeline(old(State()), before, a)
      ensures outcome.Failed? ==>
        OnOldTimeline(old(State()), before, failed) && failed !in asked && classify(failed, |asked|) == None
      ensures !outcome.Failed? ==> OneCallEach(classify, asked, probabilities)
      ensures !outcome.Failed? ==>
        forall id: nat :: id in ids <==> Condemned(old(State()), before, probabilities, threshold, id)
      ensures !outcome.Failed? ==> (outcome.NothingToDelete? <==> ids == [])
      ensures outcome.DryRun? ==> !apply && Counts(outcome.counts) == Removed(State(), Deleted(State(), ids))
      ensures !outcome.Applied? ==> State() == old(State())
      ensures outcome.Applied? ==>
        && apply
        && State() == Deleted(old(State()), ids)
        && outcome.counts.rumours == |old(rumours)| - |rumours| && outcome.counts.events == |old(events)| - |events|
        && outcome.counts.comments == |old(comments)| - |comments| && outcome.counts.likes == |old(likes)| - |likes|
        && articles == old(articles)
        && forall r :: r in rumours <==> r in old(rumours) && !Condemned(old(State()), before, probabilities, threshold, r.id)
    {
      hide Deleted, ValidTables, Condemned, QueryResult, OneCallEach, Removed, Listed, OnOldTimeline;
      ghost var t := State();
      var rows := QueryRows(before);
      GroupingIsComplete(t, before, rows);
      var groups := ListRumoursForReclassify(rows);
      var verdicts;
      verdicts, asked, failed := Judge(groups, threshold, classify);
      forall a | Listed(groups, a) ensures OnOldTimeline(t, before, a) {
        ListedOnTimeline(t, before, groups, a);
      }
      if verdicts.None? {
        return Failed, [], asked, map[], failed;
      }
      var toDelete := verdicts.value.toDelete;
      ids, probabilities := toDelete, verdicts.value.probabilities;
      forall id: nat ensures id in ids <==> Condemned(t, before, probabilities, threshold, id) {
        VerdictsAreExact(t, before, groups, probabilities, threshold, id);
      }
      if |toDelete| == 0 {
        outcome := NothingToDelete;
      } else if !apply {
        var d := CountRumourDeletion(toDelete);
        outcome := DryRun(d);
      } else {
        DeletionLeavesNothingDangling(t, toDelete);
        var d := DeleteRumours(toDelete);
        outcome := Applied(d);
      }
    }
  }

  function AllJoined(t: Tables, before: int): set<JoinRow> {
    (set r, e | r in t.rumours && r.createdAt < before && e in t.events && e.rumourId == r.id :: JoinRow(r, Some(e)))
    + (set r | r in t.rumours && r.createdAt < before && (forall e :: e in t.events ==> e.rumourId != r.id) :: JoinRow(r, None))
  }

  lemma {:induction false} JoinedRows(t: Tables, before: int)
    ensures forall row :: row in AllJoined(t, before) <==> Joined(t, before, row)
  {
    forall row ensures row in AllJoined(t, before) <==> Joined(t, before, row) {
      if Joined(t, before, row) {
        assert row == JoinRow(row.rumour, row.event);
      }
    }
  }

  /** No row of the set comes before this one. */
  predicate Leads(rows: set<JoinRow>, first: JoinRow) {
    first in rows && forall row :: row in rows ==> RowInOrder(first, row)
  }

  lemma {:induction false} LeaderIsFirst(rows: set<JoinRow>, first: JoinRow)
    requires Leads(rows, first)
    ensures forall row :: row in rows ==> RowInOrder(first, row)
  {
  }

  lemma {:induction false} SomeRowLeads(rows: set<JoinRow>) returns (first: JoinRow)
    requires rows != {}
    ensures first in rows && Leads(rows, first)
    decreases |rows|
  {
    hide RowInOrder;
    var row :| row in rows;
    var rest := rows - {row};
    assert rows == rest + {row};
    RowsCompare(row, row, row);
    if rest == {} {
      first := row;
    } else {
      first := SomeRowLeads(rest);
      forall other | other in rest ensures RowInOrder(row, first) ==> RowInOrder(row, other) {
        RowsCompare(row, first, other);
      }
      RowsCompare(row, first, first);
      if RowInOrder(row, first) {
        first := row;
      }
    }
  }

  /** The order is total and transitive. */
  lemma {:induction false} RowsCompare(a: JoinRow, b: JoinRow, c: JoinRow)
    ensures RowInOrder(a, b) || RowInOrder(b, a)
    ensures RowInOrder(a, b) && RowInOrder(b, c) ==> RowInOrder(a, c)
  {
  }
}

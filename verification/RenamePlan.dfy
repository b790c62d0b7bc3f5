/** Which rows a roster sync renames to a roster club's name (planRenames in
    internal/store/roster_sync.go) and why the renames are safe one at a time. */
module RenamePlan {
  import opened Wrappers
  import opened Text
  import opened Roster
  import opened RosterLookup
  import opened ClubTables

  datatype Rename = Rename(id: nat, from: string, to: string)

  /** The row resolves to a roster club but is not stored under its exact name. */
  predicate Misnamed(r: Roster, row: ClubRow) {
    Lookup(r, row.name).Some? && Lookup(r, row.name).value.club.name != row.name
  }

  function RenameOf(r: Roster, row: ClubRow): Rename {
    Rename(row.id, row.name, CanonicalName(r, row.name))
  }

  /** The lower-cased name of the club the row resolves to. */
  function Target(r: Roster, row: ClubRow): string {
    match Lookup(r, row.name)
    case Some(e) => Lower(e.club.name)
    case None => ""
  }

  /** Row i takes over its club's name: no other row holds that name, and row i either holds it
      in another case or is the oldest row resolving to the club. */
  ghost predicate Elected(r: Roster, clubs: seq<ClubRow>, i: nat)
    requires i < |clubs|
  {
    && Misnamed(r, clubs[i])
    && (forall j :: 0 <= j < |clubs| && j != i ==> Lower(clubs[j].name) != Target(r, clubs[i]))
    && (Lower(clubs[i].name) == Target(r, clubs[i])
        || forall j :: 0 <= j < i ==> Lookup(r, clubs[j].name) != Lookup(r, clubs[i].name))
  }

  ghost function Renames(r: Roster, clubs: seq<ClubRow>, n: nat): seq<Rename>
    requires n <= |clubs|
  {
    if n == 0 then []
    else Renames(r, clubs, n - 1) + (if Elected(r, clubs, n - 1) then [RenameOf(r, clubs[n - 1])] else [])
  }

  ghost function Unmerged(r: Roster, clubs: seq<ClubRow>, n: nat): seq<Rename>
    requires n <= |clubs|
  {
    if n == 0 then []
    else
      Unmerged(r, clubs, n - 1)
      + (if Misnamed(r, clubs[n - 1]) && !Elected(r, clubs, n - 1) then [RenameOf(r, clubs[n - 1])] else [])
  }

  /** The plan for a whole table: who is renamed and who stays misnamed. */
  ghost predicate IsPlan(r: Roster, clubs: seq<ClubRow>, renames: seq<Rename>, unmerged: seq<Rename>) {
    renames == Renames(r, clubs, |clubs|) && unmerged == Unmerged(r, clubs, |clubs|)
  }

  // ---------- planRenames ----------

  /** Who holds the lower-cased name k once the first n rows are planned: the row stored under it,
      or else the row elected to take it. */
  ghost predicate HeldBy(r: Roster, clubs: seq<ClubRow>, n: nat, k: string, j: int)
    requires n <= |clubs|
  {
    0 <= j < |clubs| && (Lower(clubs[j].name) == k || (j < n && Elected(r, clubs, j) && Target(r, clubs[j]) == k))
  }

  ghost predicate HolderMap(holder: map<string, nat>, r: Roster, clubs: seq<ClubRow>, n: nat)
    requires n <= |clubs|
  {
    && (forall k, j :: HeldBy(r, clubs, n, k, j) ==> k in holder && holder[k] == clubs[j].id)
    && (forall k :: k in holder ==> exists j :: HeldBy(r, clubs, n, k, j))
  }

  /** The oldest row that resolves like row i. */
  lemma {:induction false} OldestLike(r: Roster, clubs: seq<ClubRow>, i: nat) returns (o: nat)
    requires i < |clubs|
    ensures o <= i && Lookup(r, clubs[o].name) == Lookup(r, clubs[i].name)
    ensures forall j :: 0 <= j < o ==> Lookup(r, clubs[j].name) != Lookup(r, clubs[i].name)
  {
    hide Lookup;
    o := 0;
    while Lookup(r, clubs[o].name) != Lookup(r, clubs[i].name)
      invariant o <= i
      invariant forall j :: 0 <= j < o ==> Lookup(r, clubs[j].name) != Lookup(r, clubs[i].name)
      decreases i - o
    {
      o := o + 1;
    }
  }

  lemma {:induction false} SameTargetSameClub(r: Roster, a: ClubRow, b: ClubRow)
    requires Loaded(r) && Misnamed(r, a) && Misnamed(r, b) && Target(r, a) == Target(r, b)
    ensures Lookup(r, a.name) == Lookup(r, b.name)
  {
    hide Lookup, Lower;
    LookupFindsEntries(r, a.name);
    LookupFindsEntries(r, b.name);
    EntryNamesDistinct(r, Lookup(r, a.name).value, Lookup(r, b.name).value);
  }

  /** The holder map decides whether row i is elected. */
  lemma {:induction false} HolderDecides(holder: map<string, nat>, r: Roster, clubs: seq<ClubRow>, i: nat)
    requires Loaded(r) && UniqueClubNames(clubs)
    requires forall a, b :: 0 <= a < b < |clubs| ==> clubs[a].id != clubs[b].id
    requires i < |clubs| && Misnamed(r, clubs[i]) && HolderMap(holder, r, clubs, i)
    ensures
      var target := Target(r, clubs[i]);
      Elected(r, clubs, i) <==> !(target in holder && holder[target] != clubs[i].id)
  {
    hide Lookup, Lower, Loaded;
    var target := Target(r, clubs[i]);
    if j :| 0 <= j < |clubs| && j != i && Lower(clubs[j].name) == target {
      assert HeldBy(r, clubs, i, target, j);
    } else if Lower(clubs[i].name) == target {
      assert HeldBy(r, clubs, i, target, i);
    } else {
      var o := OldestLike(r, clubs, i);
      assert Misnamed(r, clubs[o]);
      assert Target(r, clubs[o]) == target;
      assert Elected(r, clubs, o);
      if o < i {
        assert HeldBy(r, clubs, i, target, o);
      } else if target in holder {
        var j :| HeldBy(r, clubs, i, target, j);
        SameTargetSameClub(r, clubs[j], clubs[i]);
      }
    }
  }

  lemma {:induction false} HolderStep(holder: map<string, nat>, r: Roster, clubs: seq<ClubRow>, i: nat)
    requires i < |clubs| && HolderMap(holder, r, clubs, i)
    requires Elected(r, clubs, i) ==> !(Target(r, clubs[i]) in holder && holder[Target(r, clubs[i])] != clubs[i].id)
    ensures
      if Elected(r, clubs, i)
      then HolderMap(holder[Target(r, clubs[i]) := clubs[i].id], r, clubs, i + 1)
      else HolderMap(holder, r, clubs, i + 1)
  {
    hide Lookup, Lower, Elected, Target;
    var n := i + 1;
    forall k, j ensures HeldBy(r, clubs, n, k, j) <==>
        HeldBy(r, clubs, i, k, j) || (j == i && Elected(r, clubs, i) && Target(r, clubs[i]) == k) {
    }
    var holder' := if Elected(r, clubs, i) then holder[Target(r, clubs[i]) := clubs[i].id] else holder;
    forall k | k in holder' ensures exists j :: HeldBy(r, clubs, n, k, j) {
      if Elected(r, clubs, i) && k == Target(r, clubs[i]) {
        assert HeldBy(r, clubs, n, k, i);
      } else {
        var j :| HeldBy(r, clubs, i, k, j);
        assert HeldBy(r, clubs, n, k, j);
      }
    }
  }

  lemma {:induction false} HolderStart(holder: map<string, nat>, r: Roster, clubs: seq<ClubRow>)
    requires UniqueClubNames(clubs)
    requires forall j :: 0 <= j < |clubs| ==> Lower(clubs[j].name) in holder && holder[Lower(clubs[j].name)] == clubs[j].id
    requires forall k :: k in holder ==> exists j :: 0 <= j < |clubs| && Lower(clubs[j].name) == k
    ensures HolderMap(holder, r, clubs, 0)
  {
    hide Lookup, Lower, Elected, Target;
    forall k | k in holder ensures exists j :: HeldBy(r, clubs, 0, k, j) {
      var j :| 0 <= j < |clubs| && Lower(clubs[j].name) == k;
      assert HeldBy(r, clubs, 0, k, j);
    }
  }

  lemma {:induction false} PlanStep(r: Roster, clubs: seq<ClubRow>, i: nat)
    requires i < |clubs|
    ensures Elected(r, clubs, i) ==> Misnamed(r, clubs[i])
    ensures Renames(r, clubs, i + 1) ==
      Renames(r, clubs, i) + (if Elected(r, clubs, i) then [RenameOf(r, clubs[i])] else [])
    ensures Unmerged(r, clubs, i + 1) ==
      Unmerged(r, clubs, i) + (if Misnamed(r, clubs[i]) && !Elected(r, clubs, i) then [RenameOf(r, clubs[i])] else [])
  {
  }

  /** The first loop of planRenames: who holds each lower-cased name. */
  method Holders(r: Roster, clubs: seq<ClubRow>) returns (holder: map<string, nat>)
    requires UniqueClubNames(clubs)
    requires forall a, b :: 0 <= a < b < |clubs| ==> clubs[a].id != clubs[b].id
    ensures HolderMap(holder, r, clubs, 0)
  {
    hide Lookup, Lower, Elected, HolderMap;
    holder := map[];
    for c := 0 to |clubs|
      invariant forall j :: 0 <= j < c ==> Lower(clubs[j].name) in holder && holder[Lower(clubs[j].name)] == clubs[j].id
      invariant forall k :: k in holder ==> exists j :: 0 <= j < c && Lower(clubs[j].name) == k
    {
      holder := holder[Lower(clubs[c].name) := clubs[c].id];
    }
    HolderStart(holder, r, clubs);
  }

  lemma {:induction false} PlanStart(r: Roster, clubs: seq<ClubRow>)
    ensures Renames(r, clubs, 0) == [] && Unmerged(r, clubs, 0) == []
  {
  }

  /** planRenames over the rows in (created_at, id) order. */
  method PlanRenames(r: Roster, clubs: seq<ClubRow>) returns (renames: seq<Rename>, unmerged: seq<Rename>)
    requires Loaded(r) && UniqueClubNames(clubs)
    requires forall a, b :: 0 <= a < b < |clubs| ==> clubs[a].id != clubs[b].id
    ensures IsPlan(r, clubs, renames, unmerged)
  {
    hide Lookup, Lower, Elected, HolderMap, Loaded, Renames, Unmerged, UniqueClubNames;
    var holder: map<string, nat> := Holders(r, clubs);
    renames, unmerged := [], [];
    PlanStart(r, clubs);
    for c := 0 to |clubs|
      invariant HolderMap(holder, r, clubs, c)
      invariant renames == Renames(r, clubs, c)
      invariant unmerged == Unmerged(r, clubs, c)
    {
      var row := clubs[c];
      var entry := Lookup(r, row.name);
      PlanStep(r, clubs, c);
      if Misnamed(r, row) {
        HolderDecides(holder, r, clubs, c);
      }
      HolderStep(holder, r, clubs, c);
      if entry.None? || entry.value.club.name == row.name {
        continue;
      }
      var rename := Rename(row.id, row.name, entry.value.club.name);
      var target := Lower(entry.value.club.name);
      if target in holder && holder[target] != row.id {
        unmerged := unmerged + [rename];
        continue;
      }
      holder := holder[target := row.id];
      renames := renames + [rename];
    }
  }

  // ---------- safety of the plan ----------

  /** Two rows elected for one club are one row. */
  lemma {:induction false} OneRowPerClub(r: Roster, clubs: seq<ClubRow>, i: nat, j: nat)
    requires Loaded(r) && i < |clubs| && j < |clubs| && Elected(r, clubs, i) && Elected(r, clubs, j)
    requires Target(r, clubs[i]) == Target(r, clubs[j])
    ensures i == j
  {
    hide Lookup, Lower, Loaded;
    SameTargetSameClub(r, clubs[i], clubs[j]);
  }

  /** A club some row resolves to, and that no row holds exactly, gets a row: its own case variant
      if there is one, otherwise the oldest row resolving to it. */
  lemma {:induction false} ClubGetsARow(r: Roster, clubs: seq<ClubRow>, i: nat) returns (w: nat)
    requires Loaded(r) && UniqueClubNames(clubs) && i < |clubs| && Misnamed(r, clubs[i])
    requires forall j :: 0 <= j < |clubs| ==> clubs[j].name != Lookup(r, clubs[i].name).value.club.name
    ensures w < |clubs| && Elected(r, clubs, w) && Lookup(r, clubs[w].name) == Lookup(r, clubs[i].name)
    ensures forall v :: 0 <= v < |clubs| && Lower(clubs[v].name) == Target(r, clubs[i]) ==> v == w
    ensures Lower(clubs[w].name) != Target(r, clubs[i]) ==>
      forall j :: 0 <= j < w ==> Lookup(r, clubs[j].name) != Lookup(r, clubs[i].name)
  {
    hide Lookup, Lower, Loaded;
    LookupFindsEntries(r, clubs[i].name);
    if v :| 0 <= v < |clubs| && Lower(clubs[v].name) == Target(r, clubs[i]) {
      RosterRowResolves(r, clubs[v].name, Lookup(r, clubs[i].name).value);
      w := v;
    } else {
      w := OldestLike(r, clubs, i);
    }
  }

  /** A club that some row holds exactly gets no other row. */
  lemma {:induction false} ExactRowBlocksRenames(r: Roster, clubs: seq<ClubRow>, i: nat, exact: nat)
    requires i < |clubs| && exact < |clubs| && Misnamed(r, clubs[i])
    requires clubs[exact].name == Lookup(r, clubs[i].name).value.club.name
    ensures !Elected(r, clubs, i)
  {
    hide Lookup, Lower;
  }

  /** The table once the elected rows whose ids are in done are renamed. */
  ghost function AfterRenames(r: Roster, clubs: seq<ClubRow>, done: set<nat>): (after: seq<ClubRow>)
    ensures |after| == |clubs|
  {
    seq(|clubs|, i requires 0 <= i < |clubs| =>
      if Elected(r, clubs, i) && clubs[i].id in done
      then clubs[i].(name := CanonicalName(r, clubs[i].name))
      else clubs[i])
  }

  /** Whichever of the planned renames have happened, the unique index holds. */
  lemma {:induction false} EverySubsetIsUnique(r: Roster, clubs: seq<ClubRow>, done: set<nat>)
    requires Loaded(r) && UniqueClubNames(clubs)
    ensures UniqueClubNames(AfterRenames(r, clubs, done))
  {
    hide Lookup, Lower, Loaded;
    var after := AfterRenames(r, clubs, done);
    forall i, j | 0 <= i < j < |clubs| ensures Lower(after[i].name) != Lower(after[j].name) {
      if Elected(r, clubs, i) && Elected(r, clubs, j) && Target(r, clubs[i]) == Target(r, clubs[j]) {
        OneRowPerClub(r, clubs, i, j);
      }
    }
  }

  lemma {:induction false} RenamesAreElected(r: Roster, clubs: seq<ClubRow>, n: nat, x: Rename)
    requires n <= |clubs|
    ensures x in Renames(r, clubs, n) <==> exists i :: 0 <= i < n && Elected(r, clubs, i) && x == RenameOf(r, clubs[i])
  {
    hide Lookup, Lower, Elected, Misnamed;
    if n > 0 {
      PlanStep(r, clubs, n - 1);
      RenamesAreElected(r, clubs, n - 1, x);
    }
  }

  /** UPDATE clubs SET name = x.to WHERE id = x.id. */
  function RenameOne(clubs: seq<ClubRow>, x: Rename): (after: seq<ClubRow>)
    ensures |after| == |clubs|
  {
    seq(|clubs|, i requires 0 <= i < |clubs| => if clubs[i].id == x.id then clubs[i].(name := x.to) else clubs[i])
  }

  function RenameInOrder(clubs: seq<ClubRow>, order: seq<Rename>): seq<ClubRow> {
    if order == [] then clubs
    else RenameOne(RenameInOrder(clubs, order[..|order| - 1]), order[|order| - 1])
  }

  ghost function Ids(order: seq<Rename>): set<nat> {
    set x | x in order :: x.id
  }

  lemma {:induction false} RenameOneMore(r: Roster, clubs: seq<ClubRow>, done: set<nat>, w: nat)
    requires forall a, b :: 0 <= a < b < |clubs| ==> clubs[a].id != clubs[b].id
    requires w < |clubs| && Elected(r, clubs, w)
    ensures Misnamed(r, clubs[w])
    ensures RenameOne(AfterRenames(r, clubs, done), RenameOf(r, clubs[w])) == AfterRenames(r, clubs, done + {clubs[w].id})
  {
    hide Lookup, Lower;
  }

  lemma {:induction false} NoneRenamed(r: Roster, clubs: seq<ClubRow>)
    ensures AfterRenames(r, clubs, {}) == clubs
  {
    hide Elected;
  }

  lemma {:induction false} InOrderIsSubset(r: Roster, clubs: seq<ClubRow>, order: seq<Rename>)
    requires forall a, b :: 0 <= a < b < |clubs| ==> clubs[a].id != clubs[b].id
    requires forall x :: x in order ==> x in Renames(r, clubs, |clubs|)
    ensures RenameInOrder(clubs, order) == AfterRenames(r, clubs, Ids(order))
  {
    hide Elected, AfterRenames, Renames, CanonicalName, RenameOne, Misnamed;
    if order == [] {
      NoneRenamed(r, clubs);
      assert Ids(order) == {};
    } else {
      var n := |order| - 1;
      InOrderIsSubset(r, clubs, order[..n]);
      RenamesAreElected(r, clubs, |clubs|, order[n]);
      var w :| 0 <= w < |clubs| && Elected(r, clubs, w) && order[n] == RenameOf(r, clubs[w]);
      RenameOneMore(r, clubs, Ids(order[..n]), w);
      assert order == order[..n] + [order[n]];
      assert Ids(order) == Ids(order[..n]) + {order[n].id};
    }
  }

  /** The planned renames may be applied one at a time, in any order: no step breaks the unique index. */
  lemma {:induction false} RenamesSafeInAnyOrder(r: Roster, clubs: seq<ClubRow>, order: seq<Rename>)
    requires Loaded(r) && UniqueClubNames(clubs)
    requires forall a, b :: 0 <= a < b < |clubs| ==> clubs[a].id != clubs[b].id
    requires forall x :: x in order ==> x in Renames(r, clubs, |clubs|)
    ensures forall k :: 0 <= k <= |order| ==> UniqueClubNames(RenameInOrder(clubs, order[..k]))
  {
    hide Lookup, Lower, Loaded, Elected, RenameInOrder, UniqueClubNames;
    forall k | 0 <= k <= |order| ensures UniqueClubNames(RenameInOrder(clubs, order[..k])) {
      InOrderIsSubset(r, clubs, order[..k]);
      EverySubsetIsUnique(r, clubs, Ids(order[..k]));
    }
  }
}

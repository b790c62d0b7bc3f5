/** The club roster: loading it from league files and resolving a spelling to a
    club (internal/store/roster.go). */
module Roster {
  import opened Text
  import opened LeagueOrder
  import opened Permutations

  datatype Club = Club(name: string, shortName: string, crestUrl: string, aliases: seq<string>)

  datatype League = League(name: string, shortName: string, clubs: seq<Club>)

  datatype Entry = Entry(club: Club, league: string) {
    function Name(): string { club.name }
    function Key(): string { ClubKey(club.name) }
  }

  datatype Roster = Roster(leagues: seq<League>, byName: map<string, Entry>, byAlias: map<string, Entry>)

  datatype LoadError =
    | NoLeagueFiles
    | MalformedLeague(league: League)
    | DuplicateLeague(name: string)
    | ClubCollision(club: string, prior: string)
    | BadAlias(club: string, alias: string)
    | AliasIsName(alias: string, owner: string)

  // ---------- the entries of a list of leagues ----------

  function LeagueEntries(league: League): (es: seq<Entry>)
    ensures |es| == |league.clubs|
    ensures forall i :: 0 <= i < |es| ==> es[i] == Entry(league.clubs[i], league.name)
  {
    seq(|league.clubs|, i requires 0 <= i < |league.clubs| => Entry(league.clubs[i], league.name))
  }

  /** Every club with its league, league by league. */
  function Entries(leagues: seq<League>): seq<Entry> {
    if leagues == [] then []
    else Entries(leagues[..|leagues| - 1]) + LeagueEntries(leagues[|leagues| - 1])
  }

  lemma {:induction false} EntriesConcat(a: seq<League>, b: seq<League>)
    ensures Entries(a + b) == Entries(a) + Entries(b)
  {
    if b == [] {
      assert a + b == a;
    } else {
      var b', last := b[..|b| - 1], LeagueEntries(b[|b| - 1]);
      assert (a + b)[..|a + b| - 1] == a + b';
      EntriesConcat(a, b');
      assert (Entries(a) + Entries(b')) + last == Entries(a) + (Entries(b') + last);
    }
  }

  lemma {:induction false} EntriesSplit(leagues: seq<League>, i: nat)
    requires i < |leagues|
    ensures Entries(leagues) == Entries(leagues[..i]) + LeagueEntries(leagues[i]) + Entries(leagues[i + 1..])
    ensures Entries(leagues[..i + 1]) == Entries(leagues[..i]) + LeagueEntries(leagues[i])
  {
    assert leagues[..i + 1][..i] == leagues[..i];
    assert leagues == leagues[..i + 1] + leagues[i + 1..];
    EntriesConcat(leagues[..i + 1], leagues[i + 1..]);
  }

  /** Every entry comes from a league of the list. */
  lemma {:induction false} EntryLeague(leagues: seq<League>, i: nat) returns (l: nat)
    requires i < |Entries(leagues)|
    ensures l < |leagues| && Entries(leagues)[i].club in leagues[l].clubs && Entries(leagues)[i].league == leagues[l].name
  {
    var n := |leagues| - 1;
    if i < |Entries(leagues[..n])| {
      l := EntryLeague(leagues[..n], i);
    } else {
      l := n;
    }
  }

  // ---------- what a roster must satisfy to load ----------

  predicate WellFormed(league: League) {
    && league.name != "" && league.shortName != "" && league.clubs != []
    && forall c :: c in league.clubs ==> c.name != "" && c.shortName != "" && c.name == TidyClubName(c.name)
  }

  ghost predicate DistinctLeagues(leagues: seq<League>) {
    forall i, j :: 0 <= i < j < |leagues| ==> Lower(leagues[i].name) != Lower(leagues[j].name)
  }

  ghost predicate DistinctKeys(es: seq<Entry>) {
    forall i, j :: 0 <= i < j < |es| ==> es[i].Key() != es[j].Key()
  }

  ghost predicate AliasesOk(club: Club) {
    && (forall j :: 0 <= j < |club.aliases| ==>
          ClubKey(club.aliases[j]) != "" && ClubKey(club.aliases[j]) != ClubKey(club.name))
    && (forall i, j :: 0 <= i < j < |club.aliases| ==> ClubKey(club.aliases[i]) != ClubKey(club.aliases[j]))
  }

  /** Some alias of e, among the first n, has key k. */
  ghost predicate ClaimsUpTo(e: Entry, k: string, n: nat)
    requires n <= |e.club.aliases|
  {
    exists j :: 0 <= j < n && ClubKey(e.club.aliases[j]) == k
  }

  ghost predicate Claims(e: Entry, k: string) {
    ClaimsUpTo(e, k, |e.club.aliases|)
  }

  ghost predicate NoAliasIsName(es: seq<Entry>) {
    forall e, owner :: e in es && owner in es ==> !Claims(e, owner.Key())
  }

  /** The league files load. */
  ghost predicate Loadable(files: seq<League>) {
    var es := Entries(files);
    && files != []
    && (forall l :: l in files ==> WellFormed(l))
    && DistinctLeagues(files)
    && DistinctKeys(es)
    && (forall e :: e in es ==> AliasesOk(e.club))
    && NoAliasIsName(es)
  }

  // ---------- the two indexes ----------

  function NameIndex(es: seq<Entry>): map<string, Entry> {
    if es == [] then map[]
    else NameIndex(es[..|es| - 1])[es[|es| - 1].Key() := es[|es| - 1]]
  }

  ghost function Claimants(es: seq<Entry>, k: string): seq<Entry> {
    if es == [] then []
    else
      var last := es[|es| - 1];
      Claimants(es[..|es| - 1], k) + (if Claims(last, k) then [last] else [])
  }

  ghost function AliasKeys(es: seq<Entry>): set<string> {
    set i, j | 0 <= i < |es| && 0 <= j < |es[i].club.aliases| :: ClubKey(es[i].club.aliases[j])
  }

  /** An alias key resolves to its claimant when exactly one club claims it. */
  ghost function AliasIndex(es: seq<Entry>): map<string, Entry> {
    map k | k in AliasKeys(es) && |Claimants(es, k)| == 1 :: Claimants(es, k)[0]
  }

  lemma {:induction false} NameIndexIs(es: seq<Entry>)
    requires DistinctKeys(es)
    ensures forall i :: 0 <= i < |es| ==> es[i].Key() in NameIndex(es) && NameIndex(es)[es[i].Key()] == es[i]
    ensures forall k :: k in NameIndex(es) ==> NameIndex(es)[k] in es && NameIndex(es)[k].Key() == k
  {
    hide ClubKey;
    if es != [] {
      var n := |es| - 1;
      NameIndexIs(es[..n]);
      forall i | 0 <= i < |es| ensures es[i].Key() in NameIndex(es) && NameIndex(es)[es[i].Key()] == es[i] {
        if i < n {
          assert es[..n][i] == es[i];
        }
      }
    }
  }

  lemma {:induction false} ClaimantsAre(es: seq<Entry>, k: string)
    ensures forall e :: e in Claimants(es, k) <==> e in es && Claims(e, k)
    ensures Claimants(es, k) != [] <==> k in AliasKeys(es)
  {
    hide ClubKey;
    if es != [] {
      var n := |es| - 1;
      ClaimantsAre(es[..n], k);
      assert es == es[..n] + [es[n]];
    }
    if Claimants(es, k) != [] {
      var e := Claimants(es, k)[0];
      assert e in es && Claims(e, k);
      var i :| 0 <= i < |es| && es[i] == e;
      var j :| 0 <= j < |e.club.aliases| && ClubKey(e.club.aliases[j]) == k;
      assert ClubKey(es[i].club.aliases[j]) in AliasKeys(es);
    }
    if k in AliasKeys(es) {
      var i, j :| 0 <= i < |es| && 0 <= j < |es[i].club.aliases| && ClubKey(es[i].club.aliases[j]) == k;
      assert Claims(es[i], k);
    }
  }

  // ---------- sorting the leagues by name ----------

  function InsertLeague(l: League, sorted: seq<League>): (r: seq<League>)
    ensures multiset(r) == multiset(sorted) + multiset{l}
  {
    if sorted == [] then [l]
    else if Less(sorted[0].name, l.name) then
      assert sorted == [sorted[0]] + sorted[1..];
      [sorted[0]] + InsertLeague(l, sorted[1..])
    else [l] + sorted
  }

  /** sort.Slice by Name. */
  function SortLeagues(leagues: seq<League>): (r: seq<League>)
    ensures multiset(r) == multiset(leagues)
  {
    if leagues == [] then []
    else
      assert leagues == [leagues[0]] + leagues[1..];
      InsertLeague(leagues[0], SortLeagues(leagues[1..]))
  }

  ghost predicate SortedByName(leagues: seq<League>) {
    forall i, j :: 0 <= i < j < |leagues| ==> !Less(leagues[j].name, leagues[i].name)
  }

  lemma {:induction false} InsertKeepsSorted(l: League, sorted: seq<League>)
    requires SortedByName(sorted)
    ensures SortedByName(InsertLeague(l, sorted))
  {
    if sorted != [] {
      var first := sorted[0];
      if Less(first.name, l.name) {
        InsertKeepsSorted(l, sorted[1..]);
        var rest := InsertLeague(l, sorted[1..]);
        forall j | 0 <= j < |rest| ensures !Less(rest[j].name, first.name) {
          assert rest[j] in multiset(rest);
          if rest[j] == l {
            if Less(l.name, first.name) {
              LessTransitive(first.name, l.name, first.name);
              LessIrreflexive(first.name);
            }
          } else {
            assert rest[j] in sorted[1..];
          }
        }
      } else {
        forall j | 0 <= j < |sorted| ensures !Less(sorted[j].name, l.name) {
          LessTotal(sorted[j].name, first.name);
          if Less(first.name, sorted[j].name) && Less(sorted[j].name, l.name) {
            LessTransitive(first.name, sorted[j].name, l.name);
          }
        }
      }
    }
  }

  lemma {:induction false} SortSorts(leagues: seq<League>)
    ensures SortedByName(SortLeagues(leagues))
  {
    if leagues != [] {
      SortSorts(leagues[1..]);
      InsertKeepsSorted(leagues[0], SortLeagues(leagues[1..]));
    }
  }

  lemma {:induction false} SameFirst(a: seq<League>, b: seq<League>)
    requires SortedByName(a) && SortedByName(b) && multiset(a) == multiset(b) && DistinctLeagues(a)
    requires a != [] && b != []
    ensures a[0] == b[0]
  {
    assert a[0] in multiset(b) && b[0] in multiset(a);
    var i :| 0 <= i < |b| && b[i] == a[0];
    var j :| 0 <= j < |a| && a[j] == b[0];
    LessTotal(a[0].name, b[0].name);
    LessIrreflexive(a[0].name);
    assert !Less(b[i].name, b[0].name) && !Less(a[j].name, a[0].name);
    assert a[0].name == a[j].name;
  }

  lemma {:induction false} RestCounts(a: seq<League>)
    requires a != []
    ensures multiset(a[1..]) == multiset(a) - multiset{a[0]}
  {
    assert a == [a[0]] + a[1..];
  }

  lemma {:induction false} RestSorted(a: seq<League>)
    requires a != []
    ensures SortedByName(a) ==> SortedByName(a[1..])
    ensures DistinctLeagues(a) ==> DistinctLeagues(a[1..])
  {
    hide Less, Lower;
  }

  /** Leagues with distinct names have one sorted order. */
  lemma {:induction false} SortedOrderIsUnique(a: seq<League>, b: seq<League>)
    requires SortedByName(a) && SortedByName(b) && multiset(a) == multiset(b) && DistinctLeagues(a)
    ensures a == b
  {
    hide SortedByName, DistinctLeagues;
    assert |a| == |multiset(a)| == |multiset(b)| == |b|;
    if a != [] {
      SameFirst(a, b);
      RestCounts(a);
      RestCounts(b);
      RestSorted(a);
      RestSorted(b);
      SortedOrderIsUnique(a[1..], b[1..]);
      assert a == [a[0]] + a[1..] && b == [b[0]] + b[1..];
    }
  }

  // ---------- loading does not depend on the order of the files ----------

  lemma {:induction false} EntriesPermute(a: seq<League>, b: seq<League>)
    requires multiset(a) == multiset(b)
    ensures multiset(Entries(a)) == multiset(Entries(b))
  {
    assert |a| == |multiset(a)| == |multiset(b)| == |b|;
    if a != [] {
      var n := |a| - 1;
      assert a == a[..n] + [a[n]];
      assert a[n] in multiset(b);
      var i :| 0 <= i < |b| && b[i] == a[n];
      var b' := b[..i] + b[i + 1..];
      RemoveOne(b, i);
      EntriesPermute(a[..n], b');
      EntriesSplit(b, i);
      EntriesConcat(b[..i], b[i + 1..]);
    }
  }

  lemma {:induction false} ClaimantsCount(es: seq<Entry>, k: string, e: Entry)
    ensures multiset(Claimants(es, k))[e] == if Claims(e, k) then multiset(es)[e] else 0
  {
    hide ClubKey;
    if es != [] {
      var n := |es| - 1;
      ClaimantsCount(es[..n], k, e);
      assert es == es[..n] + [es[n]];
    }
  }

  lemma {:induction false} NameIndexPermutes(a: seq<Entry>, b: seq<Entry>)
    requires multiset(a) == multiset(b) && DistinctKeys(a) && DistinctKeys(b)
    ensures NameIndex(a) == NameIndex(b)
  {
    hide ClubKey;
    NameIndexIs(a);
    NameIndexIs(b);
    forall k ensures k in NameIndex(a) <==> k in NameIndex(b) {
      if k in NameIndex(a) { assert NameIndex(a)[k] in multiset(b); }
      if k in NameIndex(b) { assert NameIndex(b)[k] in multiset(a); }
    }
    forall k | k in NameIndex(a) ensures NameIndex(a)[k] == NameIndex(b)[k] {
      assert NameIndex(a)[k] in multiset(b);
    }
  }

  /** A key has the same claimants, as often, in either order. */
  lemma {:induction false} ClaimantsPermute(a: seq<Entry>, b: seq<Entry>, k: string)
    requires multiset(a) == multiset(b)
    ensures |Claimants(a, k)| == |Claimants(b, k)|
    ensures |Claimants(a, k)| == 1 ==> Claimants(a, k)[0] == Claimants(b, k)[0]
  {
    hide Claimants, Claims;
    var x, y := Claimants(a, k), Claimants(b, k);
    forall e ensures multiset(x)[e] == multiset(y)[e] {
      ClaimantsCount(a, k, e);
      ClaimantsCount(b, k, e);
    }
    assert multiset(x) == multiset(y);
    assert |x| == |multiset(x)| == |multiset(y)| == |y|;
    if |x| == 1 {
      assert x[0] in multiset(y);
    }
  }

  lemma {:induction false} AliasKeyIs(es: seq<Entry>, k: string)
    ensures k in AliasKeys(es) <==> Claimants(es, k) != []
    ensures k in AliasIndex(es) <==> |Claimants(es, k)| == 1
    ensures k in AliasIndex(es) ==> AliasIndex(es)[k] == Claimants(es, k)[0]
  {
    hide ClubKey, Claimants, Claims, AliasKeys;
    ClaimantsAre(es, k);
  }

  lemma {:induction false} AliasIndexPermutes(a: seq<Entry>, b: seq<Entry>)
    requires multiset(a) == multiset(b)
    ensures AliasIndex(a) == AliasIndex(b)
  {
    hide Claimants, AliasIndex;
    forall k
      ensures k in AliasIndex(a) <==> k in AliasIndex(b)
      ensures k in AliasIndex(a) ==> AliasIndex(a)[k] == AliasIndex(b)[k]
    {
      ClaimantsPermute(a, b, k);
      AliasKeyIs(a, k);
      AliasKeyIs(b, k);
    }
  }

  /** What loading the files gives. */
  ghost function RosterOf(files: seq<League>): Roster {
    var es := Entries(files);
    Roster(SortLeagues(files), NameIndex(es), AliasIndex(es))
  }

  lemma {:induction false} LoadablePermutes(a: seq<League>, b: seq<League>)
    requires multiset(a) == multiset(b) && Loadable(a)
    ensures Loadable(b)
  {
    hide ClubKey;
    EntriesPermute(a, b);
    PermutationKeepsDistinct(a, b, (l: League) => Lower(l.name));
    PermutationKeepsDistinct(Entries(a), Entries(b), (e: Entry) => e.Key());
    assert |a| == |multiset(a)| == |multiset(b)| == |b|;
    forall l | l in b ensures WellFormed(l) {
      assert l in multiset(a);
    }
    forall e | e in Entries(b) ensures e in Entries(a) {
      assert e in multiset(Entries(a));
    }
  }

  /** Neither whether the files load nor the roster they give depends on their order. */
  lemma {:induction false} LoadIgnoresFileOrder(a: seq<League>, b: seq<League>)
    requires multiset(a) == multiset(b)
    ensures Loadable(a) <==> Loadable(b)
    ensures Loadable(a) ==> RosterOf(a) == RosterOf(b)
  {
    if Loadable(b) {
      LoadablePermutes(b, a);
    }
    if Loadable(a) {
      LoadablePermutes(a, b);
      EntriesPermute(a, b);
      NameIndexPermutes(Entries(a), Entries(b));
      AliasIndexPermutes(Entries(a), Entries(b));
      SortSorts(a);
      SortSorts(b);
      PermutationKeepsDistinct(a, SortLeagues(a), (l: League) => Lower(l.name));
      SortedOrderIsUnique(SortLeagues(a), SortLeagues(b));
    }
  }
}

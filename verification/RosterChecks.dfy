/** What loadRoster demands, said club by club and alias by alias of the league files
    (internal/store/roster.go). */
module RosterChecks {
  import opened Text
  import opened Roster

  /** files[f] has a club number c. */
  predicate IsClub(files: seq<League>, f: int, c: int) {
    0 <= f < |files| && 0 <= c < |files[f].clubs|
  }

  function ClubAt(files: seq<League>, f: int, c: int): Club
    requires IsClub(files, f, c)
  {
    files[f].clubs[c]
  }

  ghost predicate LeaguesNamed(files: seq<League>) {
    && (forall f :: 0 <= f < |files| ==> files[f].name != "" && files[f].shortName != "" && |files[f].clubs| > 0)
    && (forall f, g :: 0 <= f < g < |files| ==> Lower(files[f].name) != Lower(files[g].name))
  }

  ghost predicate ClubsNamed(files: seq<League>) {
    forall f, c :: IsClub(files, f, c) ==>
      var club := ClubAt(files, f, c);
      club.name != "" && club.shortName != "" && TidyClubName(club.name) == club.name
  }

  /** No two clubs have one key. */
  ghost predicate ClubsDiffer(files: seq<League>) {
    forall f, c, g, d :: IsClub(files, f, c) && IsClub(files, g, d) && (f, c) != (g, d) ==>
      ClubKey(ClubAt(files, f, c).name) != ClubKey(ClubAt(files, g, d).name)
  }

  /** A club's aliases have keys of their own: not empty, not repeated. */
  ghost predicate AliasesDiffer(files: seq<League>) {
    forall f, c :: IsClub(files, f, c) ==>
      var aliases := ClubAt(files, f, c).aliases;
      && (forall j :: 0 <= j < |aliases| ==> ClubKey(aliases[j]) != "")
      && (forall i, j :: 0 <= i < j < |aliases| ==> ClubKey(aliases[i]) != ClubKey(aliases[j]))
  }

  ghost predicate AliasedBy(club: Club, k: string) {
    exists j :: 0 <= j < |club.aliases| && ClubKey(club.aliases[j]) == k
  }

  /** No alias, of whatever club, is a club's name. */
  ghost predicate AliasesAreNoNames(files: seq<League>) {
    forall f, c, g, d :: IsClub(files, f, c) && IsClub(files, g, d) ==>
      !AliasedBy(ClubAt(files, f, c), ClubKey(ClubAt(files, g, d).name))
  }

  // ---------- places in the list of entries ----------

  lemma {:induction false} EntryAt(files: seq<League>, f: nat, c: nat) returns (i: nat)
    requires IsClub(files, f, c)
    ensures i == |Entries(files[..f])| + c
    ensures i < |Entries(files)| && Entries(files)[i] == Entry(files[f].clubs[c], files[f].name)
  {
    EntriesSplit(files, f);
    i := |Entries(files[..f])| + c;
  }

  lemma {:induction false} PlaceOf(files: seq<League>, i: nat) returns (f: nat, c: nat)
    requires i < |Entries(files)|
    ensures IsClub(files, f, c) && i == |Entries(files[..f])| + c
    ensures Entries(files)[i] == Entry(files[f].clubs[c], files[f].name)
  {
    var n := |files| - 1;
    if i < |Entries(files[..n])| {
      f, c := PlaceOf(files[..n], i);
      assert files[..n][..f] == files[..f];
    } else {
      f, c := n, i - |Entries(files[..n])|;
    }
  }

  lemma {:induction false} LaterLeague(files: seq<League>, f: nat, g: nat)
    requires f < g <= |files|
    ensures |Entries(files[..f])| + |files[f].clubs| <= |Entries(files[..g])|
  {
    assert files[..g][..f] == files[..f] && files[..g][f] == files[f];
    EntriesSplit(files[..g], f);
  }

  /** Different places are different entries. */
  lemma {:induction false} PlacesDiffer(files: seq<League>, f: nat, c: nat, g: nat, d: nat)
    requires IsClub(files, f, c) && IsClub(files, g, d) && (f, c) != (g, d)
    ensures |Entries(files[..f])| + c != |Entries(files[..g])| + d
  {
    if f < g {
      LaterLeague(files, f, g);
    } else if g < f {
      LaterLeague(files, g, f);
    }
  }

  // ---------- the checks, one by one ----------

  lemma {:induction false} KeysDiffer(files: seq<League>)
    ensures DistinctKeys(Entries(files)) <==> ClubsDiffer(files)
  {
    hide ClubKey, Entries;
    var es := Entries(files);
    if DistinctKeys(es) {
      forall f, c, g, d | IsClub(files, f, c) && IsClub(files, g, d) && (f, c) != (g, d)
        ensures ClubKey(ClubAt(files, f, c).name) != ClubKey(ClubAt(files, g, d).name)
      {
        var i := EntryAt(files, f, c);
        var j := EntryAt(files, g, d);
        PlacesDiffer(files, f, c, g, d);
        assert es[if i < j then i else j].Key() != es[if i < j then j else i].Key();
      }
    }
    if ClubsDiffer(files) {
      forall i, j | 0 <= i < j < |es| ensures es[i].Key() != es[j].Key() {
        var f, c := PlaceOf(files, i);
        var g, d := PlaceOf(files, j);
        assert ClubKey(ClubAt(files, f, c).name) != ClubKey(ClubAt(files, g, d).name);
      }
    }
  }

  /** A check of every entry's club is a check of every club. */
  lemma {:induction false} EveryClub(files: seq<League>, ok: Club -> bool)
    ensures (forall e :: e in Entries(files) ==> ok(e.club)) <==>
      forall f, c :: IsClub(files, f, c) ==> ok(ClubAt(files, f, c))
  {
    hide Entries;
    if forall e :: e in Entries(files) ==> ok(e.club) {
      forall f, c | IsClub(files, f, c) ensures ok(ClubAt(files, f, c)) {
        var i := EntryAt(files, f, c);
        assert Entries(files)[i] in Entries(files);
      }
    }
    if forall f, c :: IsClub(files, f, c) ==> ok(ClubAt(files, f, c)) {
      forall e | e in Entries(files) ensures ok(e.club) {
        var i :| 0 <= i < |Entries(files)| && Entries(files)[i] == e;
        var f, c := PlaceOf(files, i);
        assert ok(ClubAt(files, f, c));
      }
    }
  }

  lemma {:induction false} AliasNames(files: seq<League>)
    ensures NoAliasIsName(Entries(files)) <==> AliasesAreNoNames(files)
  {
    hide ClubKey, Entries;
    var es := Entries(files);
    if NoAliasIsName(es) {
      forall f, c, g, d | IsClub(files, f, c) && IsClub(files, g, d)
        ensures !AliasedBy(ClubAt(files, f, c), ClubKey(ClubAt(files, g, d).name))
      {
        var i := EntryAt(files, f, c);
        var j := EntryAt(files, g, d);
        assert es[i] in es && es[j] in es && !Claims(es[i], es[j].Key());
      }
    }
    if AliasesAreNoNames(files) {
      forall e, owner | e in es && owner in es ensures !Claims(e, owner.Key()) {
        var i :| 0 <= i < |es| && es[i] == e;
        var j :| 0 <= j < |es| && es[j] == owner;
        var f, c := PlaceOf(files, i);
        var g, d := PlaceOf(files, j);
        assert !AliasedBy(ClubAt(files, f, c), ClubKey(ClubAt(files, g, d).name));
      }
    }
  }

  lemma {:induction false} LeagueChecks(files: seq<League>)
    ensures (forall l :: l in files ==> WellFormed(l)) && DistinctLeagues(files) <==>
      LeaguesNamed(files) && ClubsNamed(files)
  {
    hide Lower, TidyClubName;
    if forall l :: l in files ==> WellFormed(l) {
      forall f | 0 <= f < |files| ensures WellFormed(files[f]) {
      }
      forall f, c | IsClub(files, f, c)
        ensures
          var club := ClubAt(files, f, c);
          club.name != "" && club.shortName != "" && TidyClubName(club.name) == club.name
      {
        assert files[f].clubs[c] in files[f].clubs;
      }
    }
    if LeaguesNamed(files) && ClubsNamed(files) {
      forall l | l in files ensures WellFormed(l) {
        var f :| 0 <= f < |files| && files[f] == l;
        forall c | c in l.clubs ensures c.name != "" && c.shortName != "" && c.name == TidyClubName(c.name) {
          var d :| 0 <= d < |l.clubs| && l.clubs[d] == c;
          assert ClubAt(files, f, d) == c;
        }
      }
    }
  }

  /** Files load exactly when every league and club is named and tidy, no two leagues and no two clubs
      collide, and no alias is empty, repeated within its club, or any club's name. */
  lemma {:induction false} LoadableIs(files: seq<League>)
    ensures Loadable(files) <==>
      && files != []
      && LeaguesNamed(files) && ClubsNamed(files)
      && ClubsDiffer(files) && AliasesDiffer(files) && AliasesAreNoNames(files)
  {
    hide ClubKey, Entries, WellFormed, DistinctLeagues, DistinctKeys, NoAliasIsName, AliasesAreNoNames, ClubsDiffer;
    LeagueChecks(files);
    KeysDiffer(files);
    AliasNames(files);
    EveryClub(files, (club: Club) => AliasesOk(club));
    if AliasesAreNoNames(files) {
      OwnAliases(files);
    }
  }

  /** That no alias is its own club's name is part of its being no club's. */
  lemma {:induction false} OwnAliases(files: seq<League>)
    requires AliasesAreNoNames(files)
    ensures (forall f, c :: IsClub(files, f, c) ==> AliasesOk(ClubAt(files, f, c))) <==> AliasesDiffer(files)
  {
    hide ClubKey;
    forall f, c | IsClub(files, f, c)
      ensures forall j :: 0 <= j < |ClubAt(files, f, c).aliases| ==>
        ClubKey(ClubAt(files, f, c).aliases[j]) != ClubKey(ClubAt(files, f, c).name)
    {
      assert !AliasedBy(ClubAt(files, f, c), ClubKey(ClubAt(files, f, c).name));
    }
  }
}

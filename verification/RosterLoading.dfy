/** The loop that loads a roster, proved against RosterOf. */
module RosterLoading {
  import opened Wrappers
  import opened Text
  import opened Roster

  /** The claimants of k among es and, once its first n aliases are read, e. */
  ghost function Claimed(es: seq<Entry>, e: Entry, n: nat, k: string): seq<Entry>
    requires n <= |e.club.aliases|
  {
    if ClaimsUpTo(e, k, n) then Claimants(es, k) + [e] else Claimants(es, k)
  }

  ghost predicate Records(claims: map<string, seq<Entry>>, k: string, expected: seq<Entry>) {
    if expected == [] then k !in claims else k in claims && claims[k] == expected
  }

  ghost predicate ClaimMap(claims: map<string, seq<Entry>>, es: seq<Entry>, e: Entry, n: nat)
    requires n <= |e.club.aliases|
  {
    forall k :: Records(claims, k, Claimed(es, e, n, k))
  }

  ghost predicate ClaimMapOf(claims: map<string, seq<Entry>>, es: seq<Entry>) {
    forall k :: Records(claims, k, Claimants(es, k))
  }

  lemma {:induction false} ClaimMapStart(claims: map<string, seq<Entry>>, es: seq<Entry>, e: Entry)
    requires ClaimMapOf(claims, es)
    ensures ClaimMap(claims, es, e, 0)
  {
  }

  lemma {:induction false} ClaimedStep(e: Entry, n: nat, k: string)
    requires n < |e.club.aliases|
    ensures ClaimsUpTo(e, k, n + 1) <==> ClaimsUpTo(e, k, n) || k == ClubKey(e.club.aliases[n])
  {
    hide ClubKey;
  }

  lemma {:induction false} ClaimMapStep(claims: map<string, seq<Entry>>, es: seq<Entry>, e: Entry, n: nat)
    requires n < |e.club.aliases| && ClaimMap(claims, es, e, n)
    requires !ClaimsUpTo(e, ClubKey(e.club.aliases[n]), n)
    ensures
      var k := ClubKey(e.club.aliases[n]);
      ClaimMap(claims[k := (if k in claims then claims[k] else []) + [e]], es, e, n + 1)
  {
    hide ClubKey;
    var added := ClubKey(e.club.aliases[n]);
    var claims' := claims[added := (if added in claims then claims[added] else []) + [e]];
    var m := n + 1;
    forall k ensures Records(claims', k, Claimed(es, e, m, k)) {
      ClaimedStep(e, n, k);
      assert Records(claims, k, Claimed(es, e, n, k));
    }
  }

  lemma {:induction false} ClaimMapEnd(claims: map<string, seq<Entry>>, es: seq<Entry>, e: Entry)
    requires ClaimMap(claims, es, e, |e.club.aliases|)
    ensures ClaimMapOf(claims, es + [e])
  {
    hide ClubKey;
    assert (es + [e])[..|es + [e]| - 1] == es;
    forall k ensures Records(claims, k, Claimants(es + [e], k)) {
      assert Records(claims, k, Claimed(es, e, |e.club.aliases|, k));
      assert Claimants(es, k) + [] == Claimants(es, k);
    }
  }

  /** The first j alias keys. */
  ghost function KeysUpTo(club: Club, j: nat): set<string>
    requires j <= |club.aliases|
  {
    set i | 0 <= i < j :: ClubKey(club.aliases[i])
  }

  ghost predicate AliasesOkUpTo(club: Club, j: nat)
    requires j <= |club.aliases|
  {
    AliasesOk(club.(aliases := club.aliases[..j]))
  }

  lemma {:induction false} AliasesOkStep(club: Club, j: nat)
    requires j < |club.aliases| && AliasesOkUpTo(club, j)
    ensures AliasesOkUpTo(club, j + 1) <==>
      var k := ClubKey(club.aliases[j]);
      k != "" && k != ClubKey(club.name) && k !in KeysUpTo(club, j)
    ensures !AliasesOkUpTo(club, j + 1) ==> !AliasesOk(club)
    ensures KeysUpTo(club, j + 1) == KeysUpTo(club, j) + {ClubKey(club.aliases[j])}
  {
    hide ClubKey;
    var before, after := club.aliases[..j], club.aliases[..j + 1];
    assert after == before + [club.aliases[j]];
    assert forall i :: 0 <= i < j ==> before[i] == club.aliases[i] == after[i];
    assert after[j] == club.aliases[j];
    var k := ClubKey(club.aliases[j]);
    if k in KeysUpTo(club, j) {
      var i :| 0 <= i < j && ClubKey(club.aliases[i]) == k;
      assert ClubKey(after[i]) == ClubKey(after[j]);
    }
  }

  lemma {:induction false} KeysAreClaims(entry: Entry, j: nat, k: string)
    requires j <= |entry.club.aliases|
    ensures k in KeysUpTo(entry.club, j) <==> ClaimsUpTo(entry, k, j)
  {
    hide ClubKey;
  }

  /** Check one club's aliases and record what it claims. */
  method ClaimAliases(entry: Entry, claims0: map<string, seq<Entry>>, ghost es: seq<Entry>)
    returns (r: Result<map<string, seq<Entry>>, LoadError>)
    requires ClaimMapOf(claims0, es)
    ensures r.Success? <==> AliasesOk(entry.club)
    ensures r.Success? ==> ClaimMapOf(r.value, es + [entry])
  {
    hide ClubKey;
    var key := entry.Key();
    var claims := claims0;
    var seen: set<string> := {};
    ClaimMapStart(claims, es, entry);
    for j := 0 to |entry.club.aliases|
      invariant seen == KeysUpTo(entry.club, j)
      invariant AliasesOkUpTo(entry.club, j)
      invariant ClaimMap(claims, es, entry, j)
    {
      var alias := entry.club.aliases[j];
      var aliasKey := ClubKey(alias);
      AliasesOkStep(entry.club, j);
      if aliasKey == "" || aliasKey == key || aliasKey in seen {
        return Failure(BadAlias(entry.club.name, alias));
      }
      KeysAreClaims(entry, j, aliasKey);
      ClaimMapStep(claims, es, entry, j);
      seen := seen + {aliasKey};
      claims := claims[aliasKey := (if aliasKey in claims then claims[aliasKey] else []) + [entry]];
    }
    assert entry.club.aliases[..|entry.club.aliases|] == entry.club.aliases;
    ClaimMapEnd(claims, es, entry);
    return Success(claims);
  }

  /** What has been read so far passed every check that looks at it alone. */
  ghost predicate Checked(es: seq<Entry>) {
    DistinctKeys(es) && forall e :: e in es ==> AliasesOk(e.club)
  }

  lemma {:induction false} CheckedPrefix(es: seq<Entry>, more: seq<Entry>)
    requires Checked(es + more)
    ensures Checked(es)
  {
    hide ClubKey;
    forall i, j | 0 <= i < j < |es| ensures es[i].Key() != es[j].Key() {
      assert (es + more)[i] == es[i] && (es + more)[j] == es[j];
    }
  }

  lemma {:induction false} CheckedStep(es: seq<Entry>, e: Entry)
    requires Checked(es)
    ensures Checked(es + [e]) <==> e.Key() !in NameIndex(es) && AliasesOk(e.club)
    ensures NameIndex(es + [e]) == NameIndex(es)[e.Key() := e]
  {
    hide ClubKey, AliasesOk;
    NameIndexIs(es);
    var es' := es + [e];
    assert es'[..|es'| - 1] == es;
    if e.Key() in NameIndex(es) {
      var p :| 0 <= p < |es| && es[p] == NameIndex(es)[e.Key()];
      assert es'[p].Key() == es'[|es|].Key();
    }
    if Checked(es') {
      assert e in es';
    }
  }

  /** The maps hold what reading es leaves in them. */
  ghost predicate Progress(byName: map<string, Entry>, claims: map<string, seq<Entry>>, es: seq<Entry>) {
    Checked(es) && byName == NameIndex(es) && ClaimMapOf(claims, es)
  }

  lemma {:induction false} ProgressChecked(byName: map<string, Entry>, claims: map<string, seq<Entry>>, es: seq<Entry>)
    requires Progress(byName, claims, es)
    ensures Checked(es) && DistinctKeys(es) && byName == NameIndex(es) && ClaimMapOf(claims, es)
  {
  }

  /** Add one club. */
  method ReadClub(entry: Entry, byName: map<string, Entry>, claims: map<string, seq<Entry>>, ghost es: seq<Entry>)
    returns (r: Result<(map<string, Entry>, map<string, seq<Entry>>), LoadError>)
    requires Progress(byName, claims, es)
    ensures r.Success? <==> Checked(es + [entry])
    ensures r.Success? ==> Progress(r.value.0, r.value.1, es + [entry])
  {
    CheckedStep(es, entry);
    if entry.Key() in byName {
      return Failure(ClubCollision(entry.club.name, byName[entry.Key()].club.name));
    }
    var claimed := ClaimAliases(entry, claims, es);
    if claimed.Failure? {
      return Failure(claimed.error);
    }
    return Success((byName[entry.Key() := entry], claimed.value));
  }

  /** Add the clubs of one league, in order. */
  method ReadClubs(league: League, byName0: map<string, Entry>, claims0: map<string, seq<Entry>>, ghost es: seq<Entry>)
    returns (r: Result<(map<string, Entry>, map<string, seq<Entry>>), LoadError>)
    requires Progress(byName0, claims0, es)
    ensures r.Success? <==> Checked(es + LeagueEntries(league))
    ensures r.Success? ==> Progress(r.value.0, r.value.1, es + LeagueEntries(league))
  {
    hide *;
    var byName, claims := byName0, claims0;
    ghost var added := LeagueEntries(league);
    ghost var read := es;
    for c := 0 to |league.clubs|
      invariant read == es + added[..c]
      invariant Progress(byName, claims, read)
    {
      var entry := Entry(league.clubs[c], league.name);
      var next := ReadClub(entry, byName, claims, read);
      if next.Failure? {
        assert es + added == read + [entry] + added[c + 1..];
        if Checked(es + added) {
          CheckedPrefix(read + [entry], added[c + 1..]);
        }
        return Failure(next.error);
      }
      byName, claims := next.value.0, next.value.1;
      read := read + [entry];
    }
    assert read == es + added;
    assert Checked(read) by {
      ProgressChecked(byName, claims, read);
    }
    return Success((byName, claims));
  }

  lemma {:induction false} NameClash(es: seq<Entry>, k: string)
    requires DistinctKeys(es) && k in NameIndex(es) && Claimants(es, k) != []
    ensures !NoAliasIsName(es)
  {
    hide ClubKey;
    NameIndexIs(es);
    ClaimantsAre(es, k);
    assert Claimants(es, k)[0] in es && NameIndex(es)[k] in es;
  }

  lemma {:induction false} NoNameClash(es: seq<Entry>)
    requires DistinctKeys(es)
    requires forall k :: Claimants(es, k) != [] ==> k !in NameIndex(es)
    ensures NoAliasIsName(es)
  {
    hide ClubKey;
    NameIndexIs(es);
    forall e, owner | e in es && owner in es ensures !Claims(e, owner.Key()) {
      ClaimantsAre(es, owner.Key());
    }
  }

  /** Keep the alias keys that one club alone claims; the keys come in no particular order. */
  method ResolveAliases(byName: map<string, Entry>, claims: map<string, seq<Entry>>, ghost es: seq<Entry>)
    returns (r: Result<map<string, Entry>, LoadError>)
    requires DistinctKeys(es) && byName == NameIndex(es) && ClaimMapOf(claims, es)
    ensures r.Success? <==> NoAliasIsName(es)
    ensures r.Success? ==> r.value == AliasIndex(es)
  {
    hide ClubKey;
    var byAlias: map<string, Entry> := map[];
    var todo := claims.Keys;
    while todo != {}
      invariant todo <= claims.Keys
      invariant forall k :: k in claims && k !in todo ==> k !in byName
      invariant byAlias == map k | k in claims && k !in todo && |claims[k]| == 1 :: claims[k][0]
      decreases todo
    {
      var aliasKey :| aliasKey in todo;
      assert Records(claims, aliasKey, Claimants(es, aliasKey));
      if aliasKey in byName {
        NameClash(es, aliasKey);
        return Failure(AliasIsName(aliasKey, byName[aliasKey].club.name));
      }
      if |claims[aliasKey]| == 1 {
        byAlias := byAlias[aliasKey := claims[aliasKey][0]];
      }
      todo := todo - {aliasKey};
    }
    AliasMapDone(byAlias, claims, es);
    forall k | Claimants(es, k) != [] ensures k !in NameIndex(es) {
      assert Records(claims, k, Claimants(es, k));
    }
    NoNameClash(es);
    return Success(byAlias);
  }

  lemma {:induction false} AliasMapDone(byAlias: map<string, Entry>, claims: map<string, seq<Entry>>, es: seq<Entry>)
    requires ClaimMapOf(claims, es)
    requires byAlias == map k | k in claims && |claims[k]| == 1 :: claims[k][0]
    ensures byAlias == AliasIndex(es)
  {
    hide ClubKey;
    forall k ensures k in byAlias <==> k in AliasIndex(es) {
      assert Records(claims, k, Claimants(es, k));
      ClaimantsAre(es, k);
    }
    forall k | k in byAlias ensures byAlias[k] == AliasIndex(es)[k] {
      assert Records(claims, k, Claimants(es, k));
    }
  }

  /** The first f leagues passed the checks on leagues. */
  ghost predicate LeaguesOk(files: seq<League>, f: nat, names: set<string>)
    requires f <= |files|
  {
    && (forall i :: 0 <= i < f ==> WellFormed(files[i]) && Lower(files[i].name) in names)
    && (forall n :: n in names ==> exists i :: 0 <= i < f && Lower(files[i].name) == n)
    && DistinctLeagues(files[..f])
  }

  lemma {:induction false} LeaguesOkStep(files: seq<League>, f: nat, names: set<string>)
    requires f < |files| && LeaguesOk(files, f, names)
    ensures
      if WellFormed(files[f]) && Lower(files[f].name) !in names
      then LeaguesOk(files, f + 1, names + {Lower(files[f].name)})
      else !Loadable(files)
  {
    hide Checked, ClubKey, Lower;
    var name := Lower(files[f].name);
    if WellFormed(files[f]) && name !in names {
      var names' := names + {name};
      forall n | n in names' ensures exists i :: 0 <= i < f + 1 && Lower(files[i].name) == n {
        if n == name {
          assert 0 <= f < f + 1;
        } else {
          var i :| 0 <= i < f && Lower(files[i].name) == n;
          assert 0 <= i < f + 1;
        }
      }
      assert forall i :: 0 <= i < f ==> Lower(files[i].name) in names;
    }
  }

  lemma {:induction false} ClubsRejected(files: seq<League>, f: nat)
    requires f < |files| && !Checked(Entries(files[..f]) + LeagueEntries(files[f]))
    ensures !Loadable(files)
  {
    hide ClubKey;
    EntriesSplit(files, f);
    var read := Entries(files[..f]) + LeagueEntries(files[f]);
    if Checked(Entries(files)) {
      CheckedPrefix(read, Entries(files[f + 1..]));
    }
  }

  lemma {:induction false} AllChecked(files: seq<League>, names: set<string>)
    requires files != [] && LeaguesOk(files, |files|, names) && Checked(Entries(files))
    ensures Loadable(files) <==> NoAliasIsName(Entries(files))
  {
    hide ClubKey;
    assert files[..|files|] == files;
    assert forall l :: l in files ==> exists i :: 0 <= i < |files| && files[i] == l;
  }

  /** loadRoster: the files load exactly when they are Loadable, and give RosterOf. */
  method LoadRoster(files: seq<League>) returns (r: Result<Roster, LoadError>)
    ensures r.Success? <==> Loadable(files)
    ensures r.Success? ==> r.value == RosterOf(files)
  {
    hide Checked, Progress, LeaguesOk, NameIndex, Claimants, ClubKey, WellFormed, NoAliasIsName, DistinctKeys;
    if files == [] {
      return Failure(NoLeagueFiles);
    }
    var byName: map<string, Entry> := map[];
    var claims: map<string, seq<Entry>> := map[];
    var leagueNames: set<string> := {};
    var leagues: seq<League> := [];
    Start(files);
    for f := 0 to |files|
      invariant leagues == files[..f]
      invariant LeaguesOk(files, f, leagueNames)
      invariant Progress(byName, claims, Entries(leagues))
    {
      var league := files[f];
      EntriesSplit(files, f);
      LeaguesOkStep(files, f, leagueNames);
      if !WellFormed(league) {
        return Failure(MalformedLeague(league));
      }
      if Lower(league.name) in leagueNames {
        return Failure(DuplicateLeague(league.name));
      }
      var next := ReadClubs(league, byName, claims, Entries(leagues));
      if next.Failure? {
        ClubsRejected(files, f);
        return Failure(next.error);
      }
      leagueNames := leagueNames + {Lower(league.name)};
      byName, claims := next.value.0, next.value.1;
      leagues := leagues + [league];
      assert leagues == files[..f + 1];
    }
    assert leagues == files;
    ProgressChecked(byName, claims, Entries(files));
    AllChecked(files, leagueNames);
    var resolved := ResolveAliases(byName, claims, Entries(files));
    if resolved.Failure? {
      return Failure(resolved.error);
    }
    return Success(Roster(SortLeagues(leagues), byName, resolved.value));
  }

  lemma {:induction false} Start(files: seq<League>)
    ensures LeaguesOk(files, 0, {})
    ensures Progress(map[], map[], Entries([]))
  {
  }
}

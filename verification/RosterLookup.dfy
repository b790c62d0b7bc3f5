/** Resolving a spelling to a roster club, and what that resolution ignores. */
module RosterLookup {
  import opened Wrappers
  import opened Text
  import opened Permutations
  import opened Roster

  /** A roster that loadRoster can return: its leagues load and its indexes are theirs. */
  ghost predicate Loaded(r: Roster) {
    && Loadable(r.leagues)
    && r.byName == NameIndex(Entries(r.leagues))
    && r.byAlias == AliasIndex(Entries(r.leagues))
  }

  lemma {:induction false} LoadedRoster(files: seq<League>)
    requires Loadable(files)
    ensures Loaded(RosterOf(files))
    ensures multiset(RosterOf(files).leagues) == multiset(files)
  {
    LoadIgnoresFileOrder(files, SortLeagues(files));
  }

  /** Exact name, then unambiguous alias, then the name without its affix. */
  function Lookup(r: Roster, name: string): Option<Entry> {
    var key := ClubKey(name);
    var stripped := ClubKey(StripClubAffixes(TidyClubName(name)));
    if key == "" then None
    else if key in r.byName then Some(r.byName[key])
    else if key in r.byAlias then Some(r.byAlias[key])
    else if stripped in r.byName then Some(r.byName[stripped])
    else None
  }

  function CanonicalName(r: Roster, name: string): string {
    match Lookup(r, name)
    case Some(entry) => entry.club.name
    case None => TidyClubName(name)
  }

  /** Both indexes hold roster entries only, and the two key sets are disjoint. */
  lemma {:induction false} IndexesHoldEntries(r: Roster)
    requires Loaded(r)
    ensures forall k :: k in r.byName ==> r.byName[k] in Entries(r.leagues) && r.byName[k].Key() == k
    ensures forall k :: k in r.byAlias ==> r.byAlias[k] in Entries(r.leagues)
    ensures forall e :: e in Entries(r.leagues) ==> e.Key() in r.byName && r.byName[e.Key()] == e
  {
    hide ClubKey;
    var es := Entries(r.leagues);
    NameIndexIs(es);
    forall k | k in r.byAlias ensures r.byAlias[k] in es {
      ClaimantsAre(es, k);
    }
  }

  lemma {:induction false} LookupFindsEntries(r: Roster, name: string)
    requires Loaded(r)
    ensures Lookup(r, name).Some? ==> Lookup(r, name).value in Entries(r.leagues)
  {
    hide ClubKey;
    IndexesHoldEntries(r);
  }

  lemma {:induction false} RosterNamesAreTidy(r: Roster, e: Entry)
    requires Loaded(r) && e in Entries(r.leagues)
    ensures e.club.name != "" && TidyClubName(e.club.name) == e.club.name && e.Key() != ""
  {
    var i :| 0 <= i < |Entries(r.leagues)| && Entries(r.leagues)[i] == e;
    var l := EntryLeague(r.leagues, i);
    assert WellFormed(r.leagues[l]);
    FoldNonEmpty(Lower(e.club.name));
  }

  /** Every club name resolves to its own entry. */
  lemma {:induction false} OwnNameResolves(r: Roster, e: Entry)
    requires Loaded(r) && e in Entries(r.leagues)
    ensures Lookup(r, e.club.name) == Some(e)
  {
    hide ClubKey;
    RosterNamesAreTidy(r, e);
    IndexesHoldEntries(r);
  }

  /** Roster clubs whose names agree up to case are the same club. */
  lemma {:induction false} EntryNamesDistinct(r: Roster, e: Entry, e': Entry)
    requires Loaded(r) && e in Entries(r.leagues) && e' in Entries(r.leagues)
    requires SameUpToCase(e.club.name, e'.club.name)
    ensures e == e'
  {
    hide ClubKey;
    KeyIgnoresCase(e.club.name, e'.club.name);
    IndexesHoldEntries(r);
  }

  /** e is the one club of the roster that claims k. */
  ghost predicate SoleClaimant(es: seq<Entry>, e: Entry, k: string) {
    e in es && Claims(e, k) && forall e' :: e' in es && Claims(e', k) ==> e' == e
  }

  lemma {:induction false} ClaimantsDiffer(es: seq<Entry>, k: string)
    requires DistinctKeys(es) && |Claimants(es, k)| >= 2
    ensures Claimants(es, k)[0] != Claimants(es, k)[1]
  {
    hide ClubKey, Claimants;
    var claimants := Claimants(es, k);
    ClaimantsCount(es, k, claimants[0]);
    DistinctCount(es, (e: Entry) => e.Key(), claimants[0]);
    if claimants[0] == claimants[1] {
      RepeatedCount(claimants, 0, 1);
    }
  }

  lemma {:induction false} OneClaimant(es: seq<Entry>, k: string)
    requires DistinctKeys(es)
    ensures |Claimants(es, k)| == 1 <==> exists e :: SoleClaimant(es, e, k)
    ensures |Claimants(es, k)| == 1 ==> SoleClaimant(es, Claimants(es, k)[0], k)
  {
    hide ClubKey, Claimants, Claims;
    var claimants := Claimants(es, k);
    ClaimantsAre(es, k);
    if |claimants| == 1 {
      assert claimants[0] in claimants;
      assert SoleClaimant(es, claimants[0], k);
    } else if |claimants| >= 2 {
      ClaimantsDiffer(es, k);
      assert claimants[0] in claimants && claimants[1] in claimants;
    } else {
      assert claimants == [];
    }
  }

  /** An alias key is in byAlias exactly when one club claims it, and then leads to that club. */
  lemma {:induction false} AliasResolvesIffUnshared(r: Roster, k: string)
    requires Loaded(r)
    ensures k in r.byAlias ==> SoleClaimant(Entries(r.leagues), r.byAlias[k], k) && k !in r.byName
    ensures forall e :: SoleClaimant(Entries(r.leagues), e, k) ==> k in r.byAlias && r.byAlias[k] == e
  {
    hide ClubKey, Claimants, Claims, AliasIndex, Entries;
    var es := Entries(r.leagues);
    OneClaimant(es, k);
    AliasKeyIs(es, k);
    NameIndexIs(es);
  }

  /** Case is ignored: a spelling resolves like every spelling that differs from it in case only. */
  lemma {:induction false} LookupIgnoresCase(r: Roster, a: string, b: string)
    requires SameUpToCase(a, b)
    ensures Lookup(r, a) == Lookup(r, b)
    ensures SameUpToCase(CanonicalName(r, a), CanonicalName(r, b))
  {
    hide ClubKey, StripClubAffixes, Lower;
    KeyIgnoresCase(a, b);
    TidyIgnoresCase(a, b);
    StripIgnoresCase(TidyClubName(a), TidyClubName(b));
    KeyIgnoresCase(StripClubAffixes(TidyClubName(a)), StripClubAffixes(TidyClubName(b)));
  }

  /** Only the tidied spelling matters. */
  lemma {:induction false} LookupIgnoresTidying(r: Roster, a: string, b: string)
    requires TidyClubName(a) == TidyClubName(b)
    ensures Lookup(r, a) == Lookup(r, b) && CanonicalName(r, a) == CanonicalName(r, b)
  {
    hide TidyClubName, StripClubAffixes, Fold;
  }

  /** Any whitespace run may be replaced by any other. */
  lemma {:induction false} LookupIgnoresWhitespaceRuns(r: Roster, a: string, gap: string, gap': string, b: string)
    requires AllSpace(gap) && gap != "" && AllSpace(gap') && gap' != ""
    ensures Lookup(r, a + gap + b) == Lookup(r, a + gap' + b)
    ensures CanonicalName(r, a + gap + b) == CanonicalName(r, a + gap' + b)
    ensures CanonicalName(r, gap + a + gap') == CanonicalName(r, a)
  {
    hide Lookup, CanonicalName, TidyClubName;
    TidyIgnoresWhitespaceRuns(a, gap, gap', b);
    LookupIgnoresTidying(r, a + gap + b, a + gap' + b);
    TidyIgnoresWhitespaceRuns(gap + a, gap', gap', b);
    TidyIgnoresWhitespaceRuns(a, gap, gap', a);
    LookupIgnoresTidying(r, gap + a + gap', a);
  }

  lemma {:induction false} CanonicalNameIdempotent(r: Roster, name: string)
    requires Loaded(r)
    ensures CanonicalName(r, CanonicalName(r, name)) == CanonicalName(r, name)
    ensures Lookup(r, CanonicalName(r, name)) == Lookup(r, name)
  {
    hide Lookup;
    LookupFindsEntries(r, name);
    match Lookup(r, name) {
      case Some(e) =>
        OwnNameResolves(r, e);
      case None =>
        TidyIdempotent(name);
        LookupIgnoresTidying(r, TidyClubName(name), name);
    }
  }

  /** A stored name that matches a roster club's name up to case resolves to that club. */
  lemma {:induction false} RosterRowResolves(r: Roster, stored: string, e: Entry)
    requires Loaded(r) && e in Entries(r.leagues) && SameUpToCase(stored, e.club.name)
    ensures Lookup(r, stored) == Some(e)
  {
    hide Lookup, Lower;
    LookupIgnoresCase(r, stored, e.club.name);
    OwnNameResolves(r, e);
  }

  /** What a row of the clubs table resolves to when its name matches a spelling's canonical name up to case. */
  lemma {:induction false} CanonicalRowResolves(r: Roster, name: string, stored: string)
    requires Loaded(r) && SameUpToCase(stored, CanonicalName(r, name))
    ensures Lookup(r, stored) == Lookup(r, name)
  {
    hide Lookup, CanonicalName, Lower;
    LookupIgnoresCase(r, stored, CanonicalName(r, name));
    CanonicalNameIdempotent(r, name);
  }
}

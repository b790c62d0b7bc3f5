/** Which club a spelling resolves to, said of the clubs' names and aliases themselves
    (lookup and loadRoster in internal/store/roster.go). */
module SpellingResolution {
  import opened Wrappers
  import opened Text
  import opened Roster
  import opened RosterLookup
  import opened AffixSpelling

  /** k is the key of the club's name. */
  ghost predicate NamedBy(es: seq<Entry>, e: Entry, k: string) {
    e in es && ClubKey(e.club.name) == k
  }

  /** k is the key of one of the club's aliases. */
  ghost predicate HasAlias(e: Entry, k: string) {
    exists j :: 0 <= j < |e.club.aliases| && ClubKey(e.club.aliases[j]) == k
  }

  /** k is the key of an alias of this club and of no other. */
  ghost predicate OnlyAliasOf(es: seq<Entry>, e: Entry, k: string) {
    e in es && HasAlias(e, k) && forall e' :: e' in es && HasAlias(e', k) ==> e' == e
  }

  /** The spelling carries an affix, and is the club's name without it. */
  ghost predicate NameWithAffix(es: seq<Entry>, e: Entry, spelling: string) {
    var text := TidyClubName(spelling);
    var affix := AffixOf(Upper(text));
    affix in AFFIXES && |affix.text| <= |text| && NamedBy(es, e, ClubKey(Body(text, affix)))
  }

  lemma {:induction false} ClaimsAreAliases(es: seq<Entry>, e: Entry, k: string)
    ensures Claims(e, k) <==> HasAlias(e, k)
    ensures SoleClaimant(es, e, k) <==> OnlyAliasOf(es, e, k)
  {
    hide ClubKey;
    forall e' ensures Claims(e', k) <==> HasAlias(e', k) {
    }
  }

  /** An alias of one club alone, however it is spelled, resolves to that club. */
  lemma {:induction false} AliasResolves(r: Roster, e: Entry, spelling: string)
    requires Loaded(r) && OnlyAliasOf(Entries(r.leagues), e, ClubKey(spelling))
    ensures Lookup(r, spelling) == Some(e)
  {
    hide ClubKey, StripClubAffixes, TidyClubName, Entries, Claims, SoleClaimant;
    var es, k := Entries(r.leagues), ClubKey(spelling);
    ClaimsAreAliases(es, e, k);
    AliasResolvesIffUnshared(r, k);
    AliasKeyNotEmpty(r, e, k);
  }

  lemma {:induction false} AliasKeyNotEmpty(r: Roster, e: Entry, k: string)
    requires Loaded(r) && e in Entries(r.leagues) && HasAlias(e, k)
    ensures k != ""
  {
    hide ClubKey;
    assert AliasesOk(e.club);
  }

  lemma {:induction false} NameIsIndexed(r: Roster, e: Entry, k: string)
    requires Loaded(r)
    ensures NamedBy(Entries(r.leagues), e, k) <==> k in r.byName && r.byName[k] == e
    ensures NamedBy(Entries(r.leagues), e, k) ==> k != ""
  {
    hide ClubKey;
    IndexesHoldEntries(r);
    if NamedBy(Entries(r.leagues), e, k) {
      RosterNamesAreTidy(r, e);
    }
  }

  lemma {:induction false} AliasIsIndexed(r: Roster, e: Entry, k: string)
    requires Loaded(r)
    ensures OnlyAliasOf(Entries(r.leagues), e, k) <==> k in r.byAlias && r.byAlias[k] == e
    ensures OnlyAliasOf(Entries(r.leagues), e, k) ==> k != "" && k !in r.byName
  {
    hide ClubKey, Loaded, Claims, SoleClaimant, HasAlias;
    ClaimsAreAliases(Entries(r.leagues), e, k);
    AliasResolvesIffUnshared(r, k);
    if OnlyAliasOf(Entries(r.leagues), e, k) {
      AliasKeyNotEmpty(r, e, k);
    }
    if k in r.byAlias {
      ClaimsAreAliases(Entries(r.leagues), r.byAlias[k], k);
    }
  }

  lemma {:induction false} AffixIsStripped(r: Roster, e: Entry, spelling: string)
    requires Loaded(r) && ClubKey(spelling) !in r.byName
    ensures NameWithAffix(Entries(r.leagues), e, spelling) <==>
      StrippedKey(spelling) in r.byName && r.byName[StrippedKey(spelling)] == e
  {
    hide AffixOf, Upper, Fold, Lower, TidyClubName, StripClubAffixes, Loaded, Body;
    var text := TidyClubName(spelling);
    var affix := AffixOf(Upper(text));
    BodyIs(text);
    AffixIsOneOfFive(Upper(text));
    if affix == NoAffix {
      KeyOfTidied(spelling);
    } else {
      NameIsIndexed(r, e, ClubKey(Body(text, affix)));
    }
  }

  lemma {:induction false} KeyOfTidied(s: string)
    ensures ClubKey(Body(TidyClubName(s), NoAffix)) == ClubKey(s)
  {
    TidyIdempotent(s);
  }

  /** A spelling resolves to a club exactly when it is the club's name, or else an alias of that club
      alone, or else the club's name with an affix. */
  lemma {:induction false} LookupIs(r: Roster, spelling: string, e: Entry)
    requires Loaded(r)
    ensures
      var es, k := Entries(r.leagues), ClubKey(spelling);
      Lookup(r, spelling) == Some(e) <==>
        || NamedBy(es, e, k)
        || OnlyAliasOf(es, e, k)
        || (NameWithAffix(es, e, spelling) && forall e' :: !NamedBy(es, e', k) && !OnlyAliasOf(es, e', k))
  {
    hide ClubKey, StripClubAffixes, TidyClubName, Loaded, NamedBy, OnlyAliasOf, NameWithAffix;
    var k := ClubKey(spelling);
    forall e'
      ensures NamedBy(Entries(r.leagues), e', k) <==> k in r.byName && r.byName[k] == e'
      ensures OnlyAliasOf(Entries(r.leagues), e', k) <==> k in r.byAlias && r.byAlias[k] == e'
      ensures NamedBy(Entries(r.leagues), e', k) || OnlyAliasOf(Entries(r.leagues), e', k) ==> k != ""
      ensures OnlyAliasOf(Entries(r.leagues), e', k) ==> k !in r.byName
    {
      NameIsIndexed(r, e', k);
      AliasIsIndexed(r, e', k);
    }
    if k == "" {
      EmptyKeyNoAffix(r, e, spelling);
    } else if k in r.byName {
      assert NamedBy(Entries(r.leagues), r.byName[k], k);
    } else {
      AffixIsStripped(r, e, spelling);
      if k in r.byAlias {
        assert OnlyAliasOf(Entries(r.leagues), r.byAlias[k], k);
      }
    }
  }

  lemma {:induction false} EmptyKeyNoAffix(r: Roster, e: Entry, spelling: string)
    requires ClubKey(spelling) == ""
    ensures !NameWithAffix(Entries(r.leagues), e, spelling)
  {
    FoldNonEmpty(Lower(TidyClubName(spelling)));
  }
}

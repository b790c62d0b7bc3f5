/** Where accents are optional in a club spelling and where they are not
    (lookup and stripClubAffixes in internal/store/roster.go). */
module AffixSpelling {
  import opened Wrappers
  import opened Text
  import opened Roster
  import opened RosterLookup

  // ---------- when accents are optional ----------

  /** The key lookup tries last: the spelling without its affix. */
  function StrippedKey(spelling: string): string {
    ClubKey(StripClubAffixes(TidyClubName(spelling)))
  }

  /** Two spellings with one key resolve alike exactly when the whole key decides, or when the keys left
      once their affixes are cut agree or lead nowhere. */
  lemma {:induction false} AccentsAreOptional(r: Roster, a: string, b: string)
    requires Loaded(r) && ClubKey(a) == ClubKey(b)
    ensures Lookup(r, a) == Lookup(r, b) <==>
      || ClubKey(a) == "" || ClubKey(a) in r.byName || ClubKey(a) in r.byAlias
      || StrippedKey(a) == StrippedKey(b)
      || (StrippedKey(a) !in r.byName && StrippedKey(b) !in r.byName)
  {
    hide ClubKey, StripClubAffixes, TidyClubName;
    IndexesHoldEntries(r);
  }

  /** What is left of a text whose affix has this length. */
  function Body(text: string, affix: Affix): string
    requires affix.NoAffix? || |affix.text| <= |text|
  {
    match affix
    case NoAffix => text
    case Suffix(s) => text[..|text| - |s|]
    case Prefix(p) => text[|p|..]
  }

  lemma {:induction false} BodyIs(text: string)
    ensures AffixOf(Upper(text)).NoAffix? || |AffixOf(Upper(text)).text| <= |text|
    ensures ClubKey(StripClubAffixes(text)) == ClubKey(Body(text, AffixOf(Upper(text))))
  {
    hide AffixOf, ClubKey, TrimSpace;
    var affix := AffixOf(Upper(text));
    if !affix.NoAffix? {
      KeyOfTrimmed(Body(text, affix));
    }
  }

  /** Texts that fold alike and carry the same affix, or none, still fold alike without it. */
  lemma {:induction false} BodiesFoldAlike(a: string, b: string, affix: Affix)
    requires Fold(Lower(a)) == Fold(Lower(b)) && AffixOf(Upper(a)) == affix == AffixOf(Upper(b))
    ensures affix.NoAffix? || (|affix.text| <= |a| && |affix.text| <= |b|)
    ensures Fold(Lower(Body(a, affix))) == Fold(Lower(Body(b, affix)))
  {
    hide AffixOf, Fold;
    match affix {
      case NoAffix =>
      case Suffix(s) =>
        var m, n := |a| - |s|, |b| - |s|;
        assert Upper(a[m..]) == Upper(a)[m..] == s && Upper(b[n..]) == Upper(b)[n..] == s;
        LowerFromUpper(a[m..], b[n..]);
        FoldLowerConcat(a, m);
        FoldLowerConcat(b, n);
        var tail, x, y := Fold(Lower(a[m..])), Fold(Lower(a[..m])), Fold(Lower(b[..n]));
        assert (x + tail)[..|x|] == x && (y + tail)[..|y|] == y;
      case Prefix(p) =>
        var n := |p|;
        assert Upper(a[..n]) == Upper(a)[..n] == p && Upper(b[..n]) == Upper(b)[..n] == p;
        LowerFromUpper(a[..n], b[..n]);
        FoldLowerConcat(a, n);
        FoldLowerConcat(b, n);
        var head := Fold(Lower(a[..n]));
        assert (head + Fold(Lower(a[n..])))[|head|..] == Fold(Lower(a[n..]));
        assert (head + Fold(Lower(b[n..])))[|head|..] == Fold(Lower(b[n..]));
    }
  }

  lemma {:induction false} FoldLowerConcat(text: string, n: nat)
    requires n <= |text|
    ensures Fold(Lower(text)) == Fold(Lower(text[..n])) + Fold(Lower(text[n..]))
  {
    assert text == text[..n] + text[n..];
    LowerConcat(text[..n], text[n..]);
    FoldConcat(Lower(text[..n]), Lower(text[n..]));
  }

  /** Spellings with one key that carry the same affix, or none, resolve alike: only an affix itself
      needs its letters. */
  lemma {:induction false} SameAffixResolvesAlike(r: Roster, a: string, b: string)
    requires Loaded(r) && ClubKey(a) == ClubKey(b)
    requires AffixOf(Upper(TidyClubName(a))) == AffixOf(Upper(TidyClubName(b)))
    ensures StrippedKey(a) == StrippedKey(b) && Lookup(r, a) == Lookup(r, b)
  {
    hide AffixOf, Lower, Upper, Fold, TidyClubName, StripClubAffixes, Body, Lookup;
    var ta, tb := TidyClubName(a), TidyClubName(b);
    var affix := AffixOf(Upper(ta));
    BodiesFoldAlike(ta, tb, affix);
    BodyIs(ta);
    BodyIs(tb);
    KeyOfFolded(Body(ta, affix));
    KeyOfFolded(Body(tb, affix));
    AccentsAreOptional(r, a, b);
  }

  // ---------- the affixes ----------

  /** The affixes stripClubAffixes knows. */
  const AFFIXES: set<Affix> := {Suffix(" F.C."), Suffix(" FC"), Suffix(" AFC"), Prefix("AFC "), Prefix("FC ")}

  /** An affix found is one of the five, and none is found only where there is none. */
  lemma {:induction false} AffixIsOneOfFive(upper: string)
    ensures AffixOf(upper) == NoAffix || AffixOf(upper) in AFFIXES
    ensures AffixOf(upper) == NoAffix <==>
      && !HasSuffix(upper, " F.C.") && !HasSuffix(upper, " FC") && !HasSuffix(upper, " AFC")
      && !HasPrefix(upper, "AFC ") && !HasPrefix(upper, "FC ")
  {
    hide HasSuffix, HasPrefix;
  }

  // ---------- a club name with an affix added ----------

  function Affixed(name: string, affix: Affix): string {
    match affix
    case NoAffix => name
    case Suffix(s) => name + s
    case Prefix(p) => p + name
  }

  lemma {:induction false} SuffixChar(text: string, suffix: string, k: nat)
    requires HasSuffix(text, suffix) && 0 < k <= |suffix|
    ensures |suffix| <= |text| && text[|text| - k] == suffix[|suffix| - k]
  {
    assert text[|text| - |suffix|..][|suffix| - k] == text[|text| - k];
  }

  lemma {:induction false} SuffixOfRest(text: string, suffix: string, d: nat)
    requires HasSuffix(text, suffix) && d + |suffix| <= |text|
    ensures HasSuffix(text[d..], suffix)
  {
    assert text[d..][|text[d..]| - |suffix|..] == text[|text| - |suffix|..];
  }

  /** A prefix put in front of a name completes no suffix: the suffix was there after a space. */
  lemma {:induction false} SuffixAfterSpace(start: string, name: string, suffix: string)
    requires forall j :: 0 <= j < |start| ==> start[j] != ' '
    requires suffix != "" && suffix[0] == ' ' && HasSuffix(start + " " + name, suffix)
    ensures HasSuffix(" " + name, suffix)
  {
    hide HasSuffix;
    var text := start + " " + name;
    SuffixChar(text, suffix, |suffix|);
    assert |text| - |suffix| >= |start|;
    assert text[|start|..] == " " + name;
    SuffixOfRest(text, suffix, |start|);
  }

  lemma {:induction false} SuffixFound(text: string, suffix: string)
    requires Suffix(suffix) in AFFIXES && HasSuffix(text, suffix)
    ensures AffixOf(text) == Suffix(suffix)
  {
    hide HasSuffix, HasPrefix;
    SuffixChar(text, suffix, 1);
    SuffixChar(text, suffix, 3);
    if HasSuffix(text, " F.C.") {
      SuffixChar(text, " F.C.", 1);
    } else if HasSuffix(text, " FC") {
      SuffixChar(text, " FC", 3);
    }
  }

  lemma {:induction false} PrefixFound(text: string, prefix: string)
    requires Prefix(prefix) in AFFIXES && HasPrefix(text, prefix)
    requires !HasSuffix(text, " F.C.") && !HasSuffix(text, " FC") && !HasSuffix(text, " AFC")
    ensures AffixOf(text) == Prefix(prefix)
  {
    hide HasSuffix;
    assert text[..|prefix|][0] == text[0];
    if HasPrefix(text, "AFC ") {
      assert text[..4][0] == text[0];
    }
  }

  lemma {:induction false} NoNewSuffix(start: string, name: string)
    requires forall j :: 0 <= j < |start| ==> start[j] != ' '
    requires !AffixOf(" " + name).Suffix?
    ensures
      var text := start + " " + name;
      !HasSuffix(text, " F.C.") && !HasSuffix(text, " FC") && !HasSuffix(text, " AFC")
  {
    hide HasSuffix, HasPrefix;
    var text := start + " " + name;
    if HasSuffix(text, " F.C.") {
      SuffixAfterSpace(start, name, " F.C.");
    }
    if HasSuffix(text, " FC") {
      SuffixAfterSpace(start, name, " FC");
    }
    if HasSuffix(text, " AFC") {
      SuffixAfterSpace(start, name, " AFC");
    }
  }

  lemma {:induction false} PrefixAdded(prefix: string, upper: string)
    requires Prefix(prefix) in AFFIXES && !AffixOf(" " + upper).Suffix?
    ensures AffixOf(prefix + upper) == Prefix(prefix)
  {
    var word := prefix[..|prefix| - 1];
    assert prefix == word + " " && (prefix + upper)[..|prefix|] == prefix;
    assert forall j :: 0 <= j < |word| ==> word[j] != ' ';
    hide AffixOf, HasSuffix;
    NoNewSuffix(word, upper);
    PrefixFound(prefix + upper, prefix);
  }

  lemma {:induction false} SuffixAdded(upper: string, suffix: string)
    requires Suffix(suffix) in AFFIXES
    ensures AffixOf(upper + suffix) == Suffix(suffix)
  {
    hide AffixOf;
    assert (upper + suffix)[|upper|..] == suffix;
    SuffixFound(upper + suffix, suffix);
  }

  /** The affix added is the one found, unless a prefix is added to a name that ends in an affix. */
  lemma {:induction false} AffixFound(name: string, affix: Affix)
    requires affix in AFFIXES
    requires affix.Prefix? ==> !AffixOf(Upper(" " + name)).Suffix?
    ensures AffixOf(Upper(Affixed(name, affix))) == affix
  {
    UpperOfAffix(affix);
    hide AffixOf, Upper;
    match affix {
      case Suffix(s) =>
        UpperConcat(name, s);
        SuffixAdded(Upper(name), s);
      case Prefix(p) =>
        UpperConcat(p, name);
        UpperConcat(" ", name);
        PrefixAdded(p, Upper(name));
    }
  }

  lemma {:induction false} UpperConcat(a: string, b: string)
    ensures Upper(a + b) == Upper(a) + Upper(b)
  {
  }

  lemma {:induction false} UpperOfAffix(affix: Affix)
    requires affix in AFFIXES
    ensures Upper(affix.text) == affix.text && Upper(" ") == " "
  {
  }

  lemma {:induction false} TwoParts(a: string, b: string)
    requires a != "" && TidyClubName(a) == a && b != "" && TidyClubName(b) == b
    ensures TidyClubName(a + " " + b) == a + " " + b
  {
    FieldsSplit(a, " ", b);
    JoinTwo(Fields(a), Fields(b));
  }

  lemma {:induction false} JoinTwo(a: seq<string>, b: seq<string>)
    requires a != [] && b != []
    ensures JoinWords(a + b) == JoinWords(a) + " " + JoinWords(b)
  {
    if |a| == 1 {
      assert (a + b)[1..] == b;
    } else {
      assert (a + b)[1..] == a[1..] + b;
      JoinTwo(a[1..], b);
    }
  }

  lemma {:induction false} OneWordTidy(word: string)
    requires word != "" && forall i :: 0 <= i < |word| ==> !IsSpace(word[i])
    ensures TidyClubName(word) == word
  {
    FieldsOfJoin([word]);
  }

  lemma {:induction false} AffixedIsTidy(name: string, affix: Affix)
    requires name != "" && TidyClubName(name) == name && affix in AFFIXES
    ensures TidyClubName(Affixed(name, affix)) == Affixed(name, affix)
  {
    hide TidyClubName;
    match affix {
      case Suffix(s) =>
        assert s == " " + s[1..];
        OneWordTidy(s[1..]);
        TwoParts(name, s[1..]);
        assert name + s == name + " " + s[1..];
      case Prefix(p) =>
        var word := p[..|p| - 1];
        assert p == word + " ";
        OneWordTidy(word);
        TwoParts(word, name);
    }
  }

  /** A club's name with an affix added leads to the club, unless that text is itself a name or an alias,
      or a prefix was added to a name that ends in an affix. */
  lemma {:induction false} AffixedNameResolves(r: Roster, e: Entry, affix: Affix)
    requires Loaded(r) && e in Entries(r.leagues) && affix in AFFIXES
    requires affix.Prefix? ==> !AffixOf(Upper(" " + e.club.name)).Suffix?
    ensures
      var spelling := Affixed(e.club.name, affix);
      Lookup(r, spelling) == Some(e) || ClubKey(spelling) in r.byName || ClubKey(spelling) in r.byAlias
  {
    hide AffixOf, Upper, Lower, Fold, TidyClubName, StripClubAffixes;
    var name := e.club.name;
    var spelling := Affixed(name, affix);
    RosterNamesAreTidy(r, e);
    AffixedIsTidy(name, affix);
    AffixFound(name, affix);
    BodyIs(spelling);
    assert Body(spelling, affix) == name;
    FoldNonEmpty(Lower(spelling));
    IndexesHoldEntries(r);
  }

  // ---------- where they are not ----------

  /** The spelling X, a space and a two-letter word. */
  lemma {:induction false} XAndWord(a: char, b: char)
    requires !IsSpace(a) && !IsSpace(b)
    ensures TidyClubName("X " + [a, b]) == "X " + [a, b]
    ensures ClubKey("X " + [a, b]) == "x " + FoldChar(LowerChar(a)) + FoldChar(LowerChar(b))
  {
    hide FoldChar, Fields;
    var words := ["X", [a, b]];
    assert words[1..] == [[a, b]];
    assert JoinWords(words) == "X " + [a, b];
    FieldsOfJoin(words);
    var low := Lower("X " + [a, b]);
    assert low == "x " + ([LowerChar(a)] + [LowerChar(b)]);
    FoldConcat("x ", [LowerChar(a)] + [LowerChar(b)]);
    FoldConcat([LowerChar(a)], [LowerChar(b)]);
    FoldOne(LowerChar(a));
    FoldOne(LowerChar(b));
    XFolds();
  }

  lemma {:induction false} XFolds()
    ensures Fold("x ") == "x " && Fold("x") == "x"
  {
    assert "x " == ['x'] + [' '];
    FoldConcat(['x'], [' ']);
    FoldOne('x');
    FoldOne(' ');
  }

  lemma {:induction false} XStrips(a: char, b: char)
    ensures StripClubAffixes("X " + [a, b]) == if UpperChar(a) == 'F' && UpperChar(b) == 'C' then "X" else "X " + [a, b]
  {
    hide UpperChar;
    var name := "X " + [a, b];
    XUpper(a, b);
    XAffix(UpperChar(a), UpperChar(b));
    assert name[..1] == "X";
  }

  lemma {:induction false} XUpper(a: char, b: char)
    ensures Upper("X " + [a, b]) == "X " + [UpperChar(a), UpperChar(b)]
  {
  }

  lemma {:induction false} XAffix(a: char, b: char)
    ensures AffixOf("X " + [a, b]) == if a == 'F' && b == 'C' then Suffix(" FC") else NoAffix
  {
    var text := "X " + [a, b];
    assert text[1..] == [' ', a, b] && text[0..] == text;
    assert [' ', a, b][1] == a && [' ', a, b][2] == b && " FC"[1] == 'F' && " FC"[2] == 'C';
    assert text[..4][0] == 'X' && text[..3][0] == 'X';
  }

  lemma {:induction false} XAlone()
    ensures TidyClubName("X") == "X" && ClubKey("X") == "x"
  {
    FieldsOfJoin(["X"]);
    assert Lower("X") == "x";
    XFolds();
  }

  lemma {:induction false} OneClubEntries(club: Club) returns (e: Entry)
    ensures e == Entry(club, "L") && Entries([League("L", "L", [club])]) == [e]
  {
    e := Entry(club, "L");
    var league := League("L", "L", [club]);
    EntriesConcat([], [league]);
    assert [league][..0] == [];
    assert LeagueEntries(league) == [e];
  }

  lemma {:induction false} OneClubLoads(club: Club)
    requires club.name != "" && club.shortName != "" && club.aliases == [] && TidyClubName(club.name) == club.name
    ensures Loadable([League("L", "L", [club])])
  {
    hide TidyClubName, ClubKey, Entries, Claims;
    var e := OneClubEntries(club);
    NoAliasNoClaim(e);
  }

  /** The roster of one club called X. */
  lemma {:induction false} RosterOfX() returns (r: Roster)
    ensures Loaded(r) && r.byAlias == map[] && r.byName.Keys == {"x"}
  {
    hide TidyClubName, Fold, Lower, Entries, Loadable, Claimants;
    var club := Club("X", "X", "", []);
    XAlone();
    OneClubLoads(club);
    var e := OneClubEntries(club);
    var leagues := [League("L", "L", [club])];
    r := Roster(leagues, NameIndex([e]), AliasIndex([e]));
    assert AliasKeys([e]) == {};
    assert [e][..0] == [];
    assert NameIndex([]) == map[] && NameIndex([e]) == map[e.Key() := e];
    assert e.Key() == "x";
  }

  lemma {:induction false} NoAliasNoClaim(e: Entry)
    requires e.club.aliases == []
    ensures forall k :: !Claims(e, k)
  {
  }

  /** Accents are not optional in an affix: it is looked for before they are folded. */
  lemma {:induction false} AffixNeedsItsLetters() returns (r: Roster)
    ensures Loaded(r) && ClubKey("X FC") == ClubKey("X F\U{C7}")
    ensures Lookup(r, "X FC").Some? && Lookup(r, "X F\U{C7}").None?
  {
    hide ClubKey, Lower, StripClubAffixes, TidyClubName, Loaded;
    r := RosterOfX();
    XAlone();
    XAndWord('F', 'C');
    XAndWord('F', '\U{C7}');
    XStrips('F', 'C');
    XStrips('F', '\U{C7}');
    assert "X FC" == "X " + ['F', 'C'] && "X F\U{C7}" == "X " + ['F', '\U{C7}'];
  }
}

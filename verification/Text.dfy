/** String normalisation used to match club spellings: case mapping, whitespace
    tidying, diacritic folding and affix stripping (internal/store/roster.go). */
module Text {
  // ---------- characters ----------

  /** unicode.IsSpace. */
  predicate IsSpace(c: char) {
    var n := c as int;
    || 9 <= n <= 13 || n == 0x20 || n == 0x85 || n == 0xA0 || n == 0x1680
    || 0x2000 <= n <= 0x200A || n == 0x2028 || n == 0x2029 || n == 0x202F || n == 0x205F || n == 0x3000
  }

  /** Code points whose lower-case form is the next code point. */
  predicate PairedUpper(n: int) {
    || (0x100 <= n <= 0x12F && n % 2 == 0)
    || (0x132 <= n <= 0x137 && n % 2 == 0)
    || (0x139 <= n <= 0x148 && n % 2 == 1)
    || (0x14A <= n <= 0x177 && n % 2 == 0)
    || (0x179 <= n <= 0x17E && n % 2 == 1)
  }

  /** Simple lower-case mapping of ASCII, Latin-1 and Latin Extended-A; other characters map to themselves. */
  function LowerChar(c: char): char {
    var n := c as int;
    if 0x41 <= n <= 0x5A || (0xC0 <= n <= 0xDE && n != 0xD7) then (n + 32) as char
    else if n == 0x178 then 0xFF as char
    else if PairedUpper(n) then (n + 1) as char
    else c
  }

  /** The matching simple upper-case mapping. */
  function UpperChar(c: char): char {
    var n := c as int;
    if 0x61 <= n <= 0x7A || (0xE0 <= n <= 0xFE && n != 0xF7) then (n - 32) as char
    else if n == 0xFF then 0x178 as char
    else if n > 0 && PairedUpper(n - 1) then (n - 1) as char
    else c
  }

  /** One entry of the foldDiacritics replacer; only lower-case letters are listed there. */
  function FoldChar(c: char): string {
    var n := c as int;
    if 0xE0 <= n <= 0xE5 then "a"
    else if n == 0xE7 then "c"
    else if 0xE8 <= n <= 0xEB then "e"
    else if 0xEC <= n <= 0xEF then "i"
    else if n == 0xF1 then "n"
    else if 0xF2 <= n <= 0xF6 || n == 0xF8 then "o"
    else if 0xF9 <= n <= 0xFC then "u"
    else if n == 0xFD || n == 0xFF then "y"
    else if n == 0xDF then "ss"
    else [c]
  }

  lemma {:induction false} CaseLaws(c: char)
    ensures LowerChar(LowerChar(c)) == LowerChar(c)
    ensures UpperChar(LowerChar(c)) == UpperChar(c)
    ensures IsSpace(LowerChar(c)) == IsSpace(c)
    ensures LowerChar(UpperChar(c)) == LowerChar(c)
    ensures IsSpace(c) ==> LowerChar(c) == c
  {
  }

  // ---------- strings ----------

  function Lower(s: string): (r: string)
    ensures |r| == |s|
    ensures forall i :: 0 <= i < |s| ==> r[i] == LowerChar(s[i])
  {
    seq(|s|, i requires 0 <= i < |s| => LowerChar(s[i]))
  }

  function Upper(s: string): (r: string)
    ensures |r| == |s|
    ensures forall i :: 0 <= i < |s| ==> r[i] == UpperChar(s[i])
  {
    seq(|s|, i requires 0 <= i < |s| => UpperChar(s[i]))
  }

  /** The spellings differ in case only. */
  predicate SameUpToCase(a: string, b: string) {
    Lower(a) == Lower(b)
  }

  function Fold(s: string): string {
    if s == "" then "" else FoldChar(s[0]) + Fold(s[1..])
  }

  /** Length of the run of non-space characters at the front. */
  function WordLength(s: string): (n: nat)
    ensures n <= |s|
    ensures forall i :: 0 <= i < n ==> !IsSpace(s[i])
    ensures n < |s| ==> IsSpace(s[n])
  {
    if s == "" || IsSpace(s[0]) then 0 else 1 + WordLength(s[1..])
  }

  /** strings.Fields. */
  function Fields(s: string): seq<string>
    decreases |s|
  {
    if s == "" then []
    else if IsSpace(s[0]) then Fields(s[1..])
    else var n := WordLength(s); [s[..n]] + Fields(s[n..])
  }

  /** strings.Join(words, " "). */
  function JoinWords(words: seq<string>): string {
    if |words| == 0 then ""
    else if |words| == 1 then words[0]
    else words[0] + " " + JoinWords(words[1..])
  }

  function TidyClubName(name: string): string {
    JoinWords(Fields(name))
  }

  function ClubKey(name: string): string {
    Fold(Lower(TidyClubName(name)))
  }

  function TrimLeft(s: string): string {
    if s == "" || !IsSpace(s[0]) then s else TrimLeft(s[1..])
  }

  function TrimRight(s: string): string {
    if s == "" || !IsSpace(s[|s| - 1]) then s else TrimRight(s[..|s| - 1])
  }

  /** strings.TrimSpace. */
  function TrimSpace(s: string): string {
    TrimRight(TrimLeft(s))
  }

  predicate HasSuffix(s: string, suffix: string) {
    |suffix| <= |s| && s[|s| - |suffix|..] == suffix
  }

  predicate HasPrefix(s: string, prefix: string) {
    |prefix| <= |s| && s[..|prefix|] == prefix
  }

  /** The affix stripClubAffixes cuts. */
  datatype Affix = NoAffix | Suffix(text: string) | Prefix(text: string)

  /** The affix of a text of this upper-case form; the suffixes are tried first. */
  function AffixOf(upper: string): (affix: Affix)
    ensures affix.Suffix? ==> HasSuffix(upper, affix.text)
    ensures affix.Prefix? ==> HasPrefix(upper, affix.text)
  {
    if HasSuffix(upper, " F.C.") then Suffix(" F.C.")
    else if HasSuffix(upper, " FC") then Suffix(" FC")
    else if HasSuffix(upper, " AFC") then Suffix(" AFC")
    else if HasPrefix(upper, "AFC ") then Prefix("AFC ")
    else if HasPrefix(upper, "FC ") then Prefix("FC ")
    else NoAffix
  }

  function StripClubAffixes(name: string): string {
    match AffixOf(Upper(name))
    case NoAffix => name
    case Suffix(text) => TrimSpace(name[..|name| - |text|])
    case Prefix(text) => TrimSpace(name[|text|..])
  }

  // ---------- case mapping commutes with the rest ----------

  lemma {:induction false} LowerConcat(a: string, b: string)
    ensures Lower(a + b) == Lower(a) + Lower(b)
  {
    assert Lower(a + b) == Lower(a) + Lower(b);
  }

  lemma {:induction false} UpperIgnoresCase(a: string, b: string)
    requires SameUpToCase(a, b)
    ensures Upper(a) == Upper(b)
  {
    assert |a| == |Lower(a)| == |b|;
    forall i | 0 <= i < |a| ensures Upper(a)[i] == Upper(b)[i] {
      assert Lower(a)[i] == Lower(b)[i];
      CaseLaws(a[i]);
      CaseLaws(b[i]);
    }
  }

  lemma {:induction false} LowerFromUpper(a: string, b: string)
    requires Upper(a) == Upper(b)
    ensures SameUpToCase(a, b)
  {
    assert |a| == |Upper(a)| == |b|;
    forall i | 0 <= i < |a| ensures Lower(a)[i] == Lower(b)[i] {
      assert Upper(a)[i] == Upper(b)[i];
      CaseLaws(a[i]);
      CaseLaws(b[i]);
    }
  }

  lemma {:induction false} WordLengthLower(s: string)
    ensures WordLength(Lower(s)) == WordLength(s)
  {
    if s != "" {
      CaseLaws(s[0]);
      assert Lower(s)[1..] == Lower(s[1..]);
      WordLengthLower(s[1..]);
    }
  }

  function LowerWords(words: seq<string>): (r: seq<string>)
    ensures |r| == |words|
  {
    if words == [] then [] else [Lower(words[0])] + LowerWords(words[1..])
  }

  lemma {:induction false} FieldsLower(s: string)
    ensures Fields(Lower(s)) == LowerWords(Fields(s))
    decreases |s|
  {
    if s != "" {
      CaseLaws(s[0]);
      assert Lower(s)[1..] == Lower(s[1..]);
      if IsSpace(s[0]) {
        FieldsLower(s[1..]);
      } else {
        var n := WordLength(s);
        WordLengthLower(s);
        assert Lower(s)[..n] == Lower(s[..n]) && Lower(s)[n..] == Lower(s[n..]);
        FieldsLower(s[n..]);
        assert Fields(s) == [s[..n]] + Fields(s[n..]);
      }
    }
  }

  lemma {:induction false} JoinLower(words: seq<string>)
    ensures JoinWords(LowerWords(words)) == Lower(JoinWords(words))
  {
    if |words| > 1 {
      JoinLower(words[1..]);
      LowerConcat(words[0] + " ", JoinWords(words[1..]));
      LowerConcat(words[0], " ");
      assert Lower(" ") == " ";
    }
  }

  lemma {:induction false} TidyLower(s: string)
    ensures TidyClubName(Lower(s)) == Lower(TidyClubName(s))
  {
    FieldsLower(s);
    JoinLower(Fields(s));
  }

  /** Tidying two spellings that differ in case gives spellings that differ in case only. */
  lemma {:induction false} TidyIgnoresCase(a: string, b: string)
    requires SameUpToCase(a, b)
    ensures SameUpToCase(TidyClubName(a), TidyClubName(b))
  {
    TidyLower(a);
    TidyLower(b);
  }

  lemma {:induction false} TrimLeftLower(s: string)
    ensures TrimLeft(Lower(s)) == Lower(TrimLeft(s))
  {
    if s != "" {
      CaseLaws(s[0]);
      assert Lower(s)[1..] == Lower(s[1..]);
      if IsSpace(s[0]) {
        TrimLeftLower(s[1..]);
      }
    }
  }

  lemma {:induction false} TrimRightLower(s: string)
    ensures TrimRight(Lower(s)) == Lower(TrimRight(s))
  {
    if s != "" {
      CaseLaws(s[|s| - 1]);
      assert Lower(s)[..|s| - 1] == Lower(s[..|s| - 1]);
      if IsSpace(s[|s| - 1]) {
        TrimRightLower(s[..|s| - 1]);
      }
    }
  }

  lemma {:induction false} TrimIgnoresCase(a: string, b: string)
    requires SameUpToCase(a, b)
    ensures SameUpToCase(TrimSpace(a), TrimSpace(b))
  {
    TrimLeftLower(a);
    TrimLeftLower(b);
    TrimRightLower(TrimLeft(a));
    TrimRightLower(TrimLeft(b));
  }

  lemma {:induction false} SliceIgnoresCase(a: string, b: string, i: nat, j: nat)
    requires SameUpToCase(a, b) && i <= j <= |a|
    ensures |a| == |b| && SameUpToCase(a[i..j], b[i..j])
  {
    assert |a| == |Lower(a)| == |b|;
    assert Lower(a[i..j]) == Lower(a)[i..j];
    assert Lower(b[i..j]) == Lower(b)[i..j];
  }

  lemma {:induction false} StripIgnoresCase(a: string, b: string)
    requires SameUpToCase(a, b)
    ensures SameUpToCase(StripClubAffixes(a), StripClubAffixes(b))
  {
    UpperIgnoresCase(a, b);
    match AffixOf(Upper(a)) {
      case NoAffix =>
      case Suffix(text) =>
        SliceIgnoresCase(a, b, 0, |a| - |text|);
        TrimIgnoresCase(a[0..|a| - |text|], b[0..|a| - |text|]);
        assert a[..|a| - |text|] == a[0..|a| - |text|] && b[..|b| - |text|] == b[0..|a| - |text|];
      case Prefix(text) =>
        SliceIgnoresCase(a, b, |text|, |a|);
        TrimIgnoresCase(a[|text|..|a|], b[|text|..|a|]);
        assert a[|text|..] == a[|text|..|a|] && b[|text|..] == b[|text|..|a|];
    }
  }

  // ---------- whitespace ----------

  predicate AllSpace(s: string) {
    forall i :: 0 <= i < |s| ==> IsSpace(s[i])
  }

  predicate ProperWords(words: seq<string>) {
    forall k :: 0 <= k < |words| ==> words[k] != "" && forall i :: 0 <= i < |words[k]| ==> !IsSpace(words[k][i])
  }

  lemma {:induction false} FieldsProper(s: string)
    ensures ProperWords(Fields(s))
    decreases |s|
  {
    if s != "" {
      if IsSpace(s[0]) {
        FieldsProper(s[1..]);
      } else {
        FieldsProper(s[WordLength(s)..]);
      }
    }
  }

  lemma {:induction false} WordLengthOf(word: string, rest: string)
    requires forall i :: 0 <= i < |word| ==> !IsSpace(word[i])
    requires rest == "" || IsSpace(rest[0])
    ensures WordLength(word + rest) == |word|
  {
    if word == "" {
      assert word + rest == rest;
    } else {
      assert (word + rest)[1..] == word[1..] + rest;
      WordLengthOf(word[1..], rest);
    }
  }

  lemma {:induction false} FieldsSkip(gap: string, b: string)
    requires AllSpace(gap)
    ensures Fields(gap + b) == Fields(b)
    decreases |gap|
  {
    if gap == "" {
      assert gap + b == b;
    } else {
      assert (gap + b)[1..] == gap[1..] + b;
      FieldsSkip(gap[1..], b);
    }
  }

  /** A word followed by whitespace or the end of the text comes off the front whole. */
  lemma {:induction false} FieldsWord(word: string, rest: string)
    requires word != "" && forall i :: 0 <= i < |word| ==> !IsSpace(word[i])
    requires rest == "" || IsSpace(rest[0])
    ensures Fields(word + rest) == [word] + Fields(rest)
  {
    WordLengthOf(word, rest);
    assert (word + rest)[..|word|] == word && (word + rest)[|word|..] == rest;
  }

  /** Whitespace between two texts separates their words, however long the run is. */
  lemma {:induction false} FieldsSplit(a: string, gap: string, b: string)
    requires AllSpace(gap) && gap != ""
    ensures Fields(a + gap + b) == Fields(a) + Fields(b)
    decreases |a|
  {
    if a == "" {
      assert a + gap + b == gap + b;
      FieldsSkip(gap, b);
    } else if IsSpace(a[0]) {
      assert (a + gap + b)[1..] == a[1..] + gap + b;
      FieldsSplit(a[1..], gap, b);
    } else {
      var n := WordLength(a);
      var word, rest := a[..n], a[n..];
      assert a == word + rest && a + gap + b == word + (rest + gap + b);
      FieldsWord(word, rest);
      FieldsWord(word, rest + gap + b);
      FieldsSplit(rest, gap, b);
    }
  }

  lemma {:induction false} FieldsOfJoin(words: seq<string>)
    requires ProperWords(words)
    ensures Fields(JoinWords(words)) == words
  {
    if |words| >= 1 {
      var w := words[0];
      WordLengthOf(w, "");
      assert w + "" == w && w[|w|..] == "";
      assert Fields(w) == [w];
      if |words| > 1 {
        FieldsSplit(w, " ", JoinWords(words[1..]));
        FieldsOfJoin(words[1..]);
      }
    }
  }

  lemma {:induction false} TidyIdempotent(s: string)
    ensures TidyClubName(TidyClubName(s)) == TidyClubName(s)
  {
    FieldsProper(s);
    FieldsOfJoin(Fields(s));
  }

  /** Any whitespace run may be replaced by any other, and leading or trailing ones dropped. */
  lemma {:induction false} TidyIgnoresWhitespaceRuns(a: string, gap: string, gap': string, b: string)
    requires AllSpace(gap) && gap != ""
    requires AllSpace(gap') && gap' != ""
    ensures TidyClubName(a + gap + b) == TidyClubName(a + gap' + b)
    ensures TidyClubName(gap + b) == TidyClubName(b)
    ensures TidyClubName(a + gap) == TidyClubName(a)
  {
    FieldsSplit(a, gap, b);
    FieldsSplit(a, gap', b);
    FieldsSkip(gap, b);
    FieldsSplit(a, gap, "");
    assert a + gap + "" == a + gap;
    assert Fields("") == [] && Fields(a) + [] == Fields(a);
  }

  // ---------- club keys ----------

  lemma {:induction false} FoldNonEmpty(s: string)
    ensures Fold(s) == "" <==> s == ""
  {
  }

  lemma {:induction false} KeyIgnoresCase(a: string, b: string)
    requires SameUpToCase(a, b)
    ensures ClubKey(a) == ClubKey(b)
  {
    TidyIgnoresCase(a, b);
  }

  lemma {:induction false} FieldsTrimLeft(s: string)
    ensures Fields(TrimLeft(s)) == Fields(s)
  {
    if s != "" && IsSpace(s[0]) {
      FieldsTrimLeft(s[1..]);
    }
  }

  lemma {:induction false} FieldsTrimRight(s: string)
    ensures Fields(TrimRight(s)) == Fields(s)
  {
    if s != "" && IsSpace(s[|s| - 1]) {
      var n := |s| - 1;
      FieldsTrimRight(s[..n]);
      FieldsSplit(s[..n], s[n..], "");
      assert s[..n] + s[n..] + "" == s;
      assert Fields("") == [] && Fields(s[..n]) + [] == Fields(s[..n]);
    }
  }

  lemma {:induction false} KeyOfTrimmed(s: string)
    ensures ClubKey(TrimSpace(s)) == ClubKey(s)
  {
    FieldsTrimLeft(s);
    FieldsTrimRight(TrimLeft(s));
  }

  lemma {:induction false} FoldConcat(a: string, b: string)
    ensures Fold(a + b) == Fold(a) + Fold(b)
  {
    if a == "" {
      assert a + b == b;
    } else {
      assert (a + b)[1..] == a[1..] + b;
      FoldConcat(a[1..], b);
    }
  }

  lemma {:induction false} FoldOne(c: char)
    ensures Fold([c]) == FoldChar(c)
  {
    assert [c][1..] == "";
  }

  function FoldWords(words: seq<string>): (r: seq<string>)
    ensures |r| == |words|
    ensures forall k :: 0 <= k < |words| ==> r[k] == Fold(words[k])
  {
    seq(|words|, k requires 0 <= k < |words| => Fold(words[k]))
  }

  lemma {:induction false} FoldWord(word: string)
    requires forall i :: 0 <= i < |word| ==> !IsSpace(word[i])
    ensures forall i :: 0 <= i < |Fold(word)| ==> !IsSpace(Fold(word)[i])
  {
    if word != "" {
      FoldWord(word[1..]);
      assert forall i :: 0 <= i < |FoldChar(word[0])| ==> !IsSpace(FoldChar(word[0])[i]);
    }
  }

  lemma {:induction false} FoldSpace(c: char)
    requires IsSpace(c)
    ensures FoldChar(c) == [c]
  {
  }

  lemma {:induction false} FoldFromSpace(s: string)
    requires s != "" && IsSpace(s[0])
    ensures Fold(s) == s[..1] + Fold(s[1..]) && Fold(s)[0] == s[0]
  {
    hide FoldChar, IsSpace;
    FoldSpace(s[0]);
  }

  /** A word, folded, is still the first word. */
  lemma {:induction false} FieldsFoldWord(word: string, rest: string)
    requires word != "" && forall i :: 0 <= i < |word| ==> !IsSpace(word[i])
    requires rest == "" || IsSpace(rest[0])
    ensures Fields(word + rest) == [word] + Fields(rest)
    ensures Fields(Fold(word + rest)) == [Fold(word)] + Fields(Fold(rest))
  {
    hide FoldChar, Fields;
    FieldsWord(word, rest);
    FoldConcat(word, rest);
    FoldWord(word);
    FoldNonEmpty(word);
    FoldNonEmpty(rest);
    if rest != "" {
      FoldFromSpace(rest);
    }
    FieldsWord(Fold(word), Fold(rest));
  }

  /** Folding keeps the words apart. */
  lemma {:induction false} FieldsFold(s: string)
    ensures Fields(Fold(s)) == FoldWords(Fields(s))
    decreases |s|
  {
    hide FoldChar, Fold;
    if s == "" {
      FoldNonEmpty(s);
    } else if IsSpace(s[0]) {
      FieldsFold(s[1..]);
      FoldFromSpace(s);
      hide Fields;
      FieldsSkip(s[..1], s[1..]);
      FieldsSkip(s[..1], Fold(s[1..]));
      assert s == s[..1] + s[1..];
    } else {
      hide Fields, WordLength;
      var n := WordLength(s);
      var word, rest := s[..n], s[n..];
      assert s == word + rest;
      FieldsFold(rest);
      FieldsFoldWord(word, rest);
      assert FoldWords([word] + Fields(rest)) == [Fold(word)] + FoldWords(Fields(rest));
    }
  }

  lemma {:induction false} JoinFold(words: seq<string>)
    ensures JoinWords(FoldWords(words)) == Fold(JoinWords(words))
  {
    if |words| > 1 {
      assert FoldWords(words)[1..] == FoldWords(words[1..]);
      JoinFold(words[1..]);
      assert words[0] + " " + JoinWords(words[1..]) == words[0] + (" " + JoinWords(words[1..]));
      FoldConcat(words[0], " " + JoinWords(words[1..]));
      FoldConcat(" ", JoinWords(words[1..]));
      FoldOne(' ');
    }
  }

  /** A club key depends on the folded lower-case text only. */
  lemma {:induction false} KeyOfFolded(s: string)
    ensures ClubKey(s) == TidyClubName(Fold(Lower(s)))
  {
    TidyLower(s);
    FieldsFold(Lower(s));
    JoinFold(Fields(Lower(s)));
  }
}

/** The letters and spaces the spelling rules know, spelled out (internal/store/roster.go). */
module LetterTables {
  import opened Text

  /** The small letter of an ASCII capital. */
  function AsciiSmall(c: char): char {
    match c
    case 'A' => 'a' case 'B' => 'b' case 'C' => 'c' case 'D' => 'd' case 'E' => 'e' case 'F' => 'f' case 'G' => 'g'
    case 'H' => 'h' case 'I' => 'i' case 'J' => 'j' case 'K' => 'k' case 'L' => 'l' case 'M' => 'm' case 'N' => 'n'
    case 'O' => 'o' case 'P' => 'p' case 'Q' => 'q' case 'R' => 'r' case 'S' => 's' case 'T' => 't' case 'U' => 'u'
    case 'V' => 'v' case 'W' => 'w' case 'X' => 'x' case 'Y' => 'y' case 'Z' => 'z'
    case _ => c
  }

  /** The small letter of an accented capital of Latin-1, and of the capital of its last small letter. */
  function LatinSmall(c: char): char {
    match c
    case '\U{C0}' => '\U{E0}' case '\U{C1}' => '\U{E1}' case '\U{C2}' => '\U{E2}' case '\U{C3}' => '\U{E3}'
    case '\U{C4}' => '\U{E4}' case '\U{C5}' => '\U{E5}' case '\U{C6}' => '\U{E6}' case '\U{C7}' => '\U{E7}'
    case '\U{C8}' => '\U{E8}' case '\U{C9}' => '\U{E9}' case '\U{CA}' => '\U{EA}' case '\U{CB}' => '\U{EB}'
    case '\U{CC}' => '\U{EC}' case '\U{CD}' => '\U{ED}' case '\U{CE}' => '\U{EE}' case '\U{CF}' => '\U{EF}'
    case '\U{D0}' => '\U{F0}' case '\U{D1}' => '\U{F1}' case '\U{D2}' => '\U{F2}' case '\U{D3}' => '\U{F3}'
    case '\U{D4}' => '\U{F4}' case '\U{D5}' => '\U{F5}' case '\U{D6}' => '\U{F6}' case '\U{D8}' => '\U{F8}'
    case '\U{D9}' => '\U{F9}' case '\U{DA}' => '\U{FA}' case '\U{DB}' => '\U{FB}' case '\U{DC}' => '\U{FC}'
    case '\U{DD}' => '\U{FD}' case '\U{DE}' => '\U{FE}' case '\U{178}' => '\U{FF}'
    case _ => c
  }

  /** Lower-casing and upper-casing turn these letters into each other, and change no other ASCII letter. */
  lemma {:induction false} AsciiCase(c: char)
    requires c as int < 0x80
    ensures LowerChar(c) == AsciiSmall(c)
    ensures AsciiSmall(c) != c ==> UpperChar(AsciiSmall(c)) == c
  {
  }

  lemma {:induction false} LatinCase(c: char)
    requires 0x80 <= c as int < 0x100 || c as int == 0x178
    ensures LowerChar(c) == LatinSmall(c)
    ensures LatinSmall(c) != c ==> UpperChar(LatinSmall(c)) == c
  {
  }

  /** The small letter of a capital of the first part of Latin Extended-A. */
  function ExtendedSmall(c: char): char {
    match c
    case '\U{100}' => '\U{101}' case '\U{102}' => '\U{103}' case '\U{104}' => '\U{105}' case '\U{106}' => '\U{107}'
    case '\U{108}' => '\U{109}' case '\U{10A}' => '\U{10B}' case '\U{10C}' => '\U{10D}' case '\U{10E}' => '\U{10F}'
    case '\U{110}' => '\U{111}' case '\U{112}' => '\U{113}' case '\U{114}' => '\U{115}' case '\U{116}' => '\U{117}'
    case '\U{118}' => '\U{119}' case '\U{11A}' => '\U{11B}' case '\U{11C}' => '\U{11D}' case '\U{11E}' => '\U{11F}'
    case '\U{120}' => '\U{121}' case '\U{122}' => '\U{123}' case '\U{124}' => '\U{125}' case '\U{126}' => '\U{127}'
    case '\U{128}' => '\U{129}' case '\U{12A}' => '\U{12B}' case '\U{12C}' => '\U{12D}' case '\U{12E}' => '\U{12F}'
    case '\U{132}' => '\U{133}' case '\U{134}' => '\U{135}' case '\U{136}' => '\U{137}'
    case _ => c
  }

  /** The small letter of a capital of the rest of Latin Extended-A. */
  function ExtendedSmallToo(c: char): char {
    match c
    case '\U{139}' => '\U{13A}' case '\U{13B}' => '\U{13C}' case '\U{13D}' => '\U{13E}' case '\U{13F}' => '\U{140}'
    case '\U{141}' => '\U{142}' case '\U{143}' => '\U{144}' case '\U{145}' => '\U{146}' case '\U{147}' => '\U{148}'
    case '\U{14A}' => '\U{14B}' case '\U{14C}' => '\U{14D}' case '\U{14E}' => '\U{14F}' case '\U{150}' => '\U{151}'
    case '\U{152}' => '\U{153}' case '\U{154}' => '\U{155}' case '\U{156}' => '\U{157}' case '\U{158}' => '\U{159}'
    case '\U{15A}' => '\U{15B}' case '\U{15C}' => '\U{15D}' case '\U{15E}' => '\U{15F}' case '\U{160}' => '\U{161}'
    case '\U{162}' => '\U{163}' case '\U{164}' => '\U{165}' case '\U{166}' => '\U{167}' case '\U{168}' => '\U{169}'
    case '\U{16A}' => '\U{16B}' case '\U{16C}' => '\U{16D}' case '\U{16E}' => '\U{16F}' case '\U{170}' => '\U{171}'
    case '\U{172}' => '\U{173}' case '\U{174}' => '\U{175}' case '\U{176}' => '\U{177}' case '\U{179}' => '\U{17A}'
    case '\U{17B}' => '\U{17C}' case '\U{17D}' => '\U{17E}'
    case _ => c
  }

  lemma {:induction false} ExtendedCase(c: char)
    requires 0x100 <= c as int < 0x139
    ensures LowerChar(c) == ExtendedSmall(c)
  {
  }

  lemma {:induction false} ExtendedCaseBack(c: char)
    requires 0x100 <= c as int < 0x139
    ensures ExtendedSmall(c) != c ==> UpperChar(ExtendedSmall(c)) == c
  {
  }

  lemma {:induction false} ExtendedCaseToo(c: char)
    requires 0x139 <= c as int < 0x180 && c as int != 0x178
    ensures LowerChar(c) == ExtendedSmallToo(c)
  {
  }

  lemma {:induction false} ExtendedCaseBackToo(c: char)
    requires 0x139 <= c as int < 0x180 && c as int != 0x178
    ensures ExtendedSmallToo(c) != c ==> UpperChar(ExtendedSmallToo(c)) == c
  {
  }

  /** What the list of accented letters replaces a letter by. */
  function PlainOf(c: char): string {
    match c
    case '\U{E1}' | '\U{E0}' | '\U{E2}' | '\U{E3}' | '\U{E4}' | '\U{E5}' => "a"
    case '\U{E9}' | '\U{E8}' | '\U{EA}' | '\U{EB}' => "e"
    case '\U{ED}' | '\U{EC}' | '\U{EE}' | '\U{EF}' => "i"
    case '\U{F3}' | '\U{F2}' | '\U{F4}' | '\U{F5}' | '\U{F6}' | '\U{F8}' => "o"
    case '\U{FA}' | '\U{F9}' | '\U{FB}' | '\U{FC}' => "u"
    case '\U{E7}' => "c"
    case '\U{F1}' => "n"
    case '\U{FD}' | '\U{FF}' => "y"
    case '\U{DF}' => "ss"
    case _ => [c]
  }

  lemma {:induction false} PlainIsFolded(c: char)
    ensures FoldChar(c) == PlainOf(c)
  {
  }

  lemma {:induction false} PlainLetter(c: char)
    ensures
      var s := PlainOf(LowerChar(c));
      s == "ss" || (|s| == 1 && LowerChar(s[0]) == s[0] && FoldChar(s[0]) == s)
  {
  }

  lemma {:induction false} DoubleS()
    ensures Fold(Lower("ss")) == "ss"
  {
    assert Lower("ss") == "ss" && "ss" == "s" + "s";
    FoldConcat("s", "s");
    FoldOne('s');
  }

  lemma {:induction false} PlainStays(c: char)
    ensures Fold(Lower(PlainOf(LowerChar(c)))) == PlainOf(LowerChar(c))
  {
    hide Fold, FoldChar, LowerChar, PlainOf;
    var s := PlainOf(LowerChar(c));
    PlainLetter(c);
    DoubleS();
    if s != "ss" {
      assert Lower(s) == s == [s[0]];
      FoldOne(s[0]);
    }
  }

  /** The text with the accents of its letters dropped, capitals included. */
  function Plain(s: string): string {
    if s == "" then "" else PlainOf(LowerChar(s[0])) + Plain(s[1..])
  }

  lemma {:induction false} PlainFoldsAlike(s: string)
    ensures Fold(Lower(Plain(s))) == Fold(Lower(s)) == Plain(s)
  {
    if s == "" {
    } else {
      hide Fold, FoldChar, LowerChar, PlainOf;
      var c, rest := s[0], s[1..];
      PlainFoldsAlike(rest);
      PlainIsFolded(LowerChar(c));
      PlainStays(c);
      FoldOne(LowerChar(c));
      assert s == [c] + rest && Lower([c]) == [LowerChar(c)];
      FoldJoined([c], rest);
      FoldJoined(PlainOf(LowerChar(c)), Plain(rest));
    }
  }

  lemma {:induction false} FoldJoined(a: string, b: string)
    ensures Fold(Lower(a + b)) == Fold(Lower(a)) + Fold(Lower(b))
  {
    LowerConcat(a, b);
    FoldConcat(Lower(a), Lower(b));
  }

  /** A text and the same text with its accents dropped have one key, which is the plain text tidied. */
  lemma {:induction false} AccentsDropped(s: string)
    ensures ClubKey(Plain(s)) == ClubKey(s) == TidyClubName(Plain(s))
  {
    hide Fold, Lower, Plain, TidyClubName;
    PlainFoldsAlike(s);
    KeyOfFolded(s);
    KeyOfFolded(Plain(s));
  }

  /** The white space characters. */
  const SPACES: set<char> := {
    '\U{9}', '\U{A}', '\U{B}', '\U{C}', '\U{D}', '\U{20}', '\U{85}', '\U{A0}', '\U{1680}', '\U{2000}', '\U{2001}', '\U{2002}',
    '\U{2003}', '\U{2004}', '\U{2005}', '\U{2006}', '\U{2007}', '\U{2008}',
    '\U{2009}', '\U{200A}', '\U{2028}', '\U{2029}', '\U{202F}', '\U{205F}', '\U{3000}'
  }

  lemma {:induction false} SpacesAre(c: char)
    ensures IsSpace(c) <==> c in SPACES
  {
  }

  /** Trimming takes whitespace off both ends and leaves none there. */
  lemma {:induction false} TrimIs(s: string) returns (left: string, right: string)
    ensures AllSpace(left) && AllSpace(right) && s == left + TrimSpace(s) + right
    ensures TrimSpace(s) != "" ==> !IsSpace(TrimSpace(s)[0]) && !IsSpace(TrimSpace(s)[|TrimSpace(s)| - 1])
  {
    left := TrimLeftIs(s);
    right := TrimRightIs(TrimLeft(s));
  }

  lemma {:induction false} TrimLeftIs(s: string) returns (left: string)
    ensures AllSpace(left) && s == left + TrimLeft(s) && (TrimLeft(s) != "" ==> !IsSpace(TrimLeft(s)[0]))
  {
    if s == "" || !IsSpace(s[0]) {
      left := "";
    } else {
      left := TrimLeftIs(s[1..]);
      left := [s[0]] + left;
    }
  }

  lemma {:induction false} TrimRightIs(s: string) returns (right: string)
    ensures AllSpace(right) && s == TrimRight(s) + right
    ensures TrimRight(s) != "" ==> TrimRight(s)[0] == s[0] && !IsSpace(TrimRight(s)[|TrimRight(s)| - 1])
  {
    if s == "" || !IsSpace(s[|s| - 1]) {
      right := "";
    } else {
      right := TrimRightIs(s[..|s| - 1]);
      right := right + [s[|s| - 1]];
    }
  }
}

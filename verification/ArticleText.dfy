/** Joining an article's title and content and splitting them again
    (internal/pipeline/pipeline.go, internal/extract/gated.go). */
module ArticleText {
  import opened Wrappers

  const BLANK_LINE := "\n\n"

  /** The text extractOne sends to the extractor. */
  function Joined(title: string, content: Option<string>): string {
    if content.Some? && content.value != "" then title + BLANK_LINE + content.value else title
  }

  /** A blank line starts at position i. */
  predicate BlankAt(text: string, i: int) {
    0 <= i && i + 1 < |text| && text[i] == '\n' && text[i + 1] == '\n'
  }

  ghost predicate HasBlankLine(text: string) {
    exists i :: BlankAt(text, i)
  }

  /** strings.Cut(text, "\n\n"): what comes before the first blank line and what comes after it. */
  function SplitArticleText(text: string): (string, string) {
    if |text| < 2 then (text, "")
    else if BlankAt(text, 0) then ("", text[2..])
    else
      var (title, body) := SplitArticleText(text[1..]);
      ([text[0]] + title, body)
  }

  predicate EndsInNewline(text: string) {
    text != "" && text[|text| - 1] == '\n'
  }

  lemma {:induction false} NothingToCut(text: string)
    requires !HasBlankLine(text)
    ensures SplitArticleText(text) == (text, "")
  {
    if |text| >= 2 {
      assert forall j :: BlankAt(text[1..], j) ==> BlankAt(text, j + 1);
      assert !BlankAt(text, 0);
      NothingToCut(text[1..]);
      assert text == [text[0]] + text[1..];
    }
  }

  lemma {:induction false} CutAtFirst(text: string, i: nat)
    requires BlankAt(text, i) && forall j :: BlankAt(text, j) ==> i <= j
    ensures SplitArticleText(text) == (text[..i], text[i + 2..])
  {
    if i > 0 {
      assert !BlankAt(text, 0);
      forall j | BlankAt(text[1..], j) ensures i - 1 <= j {
        assert BlankAt(text, j + 1);
      }
      assert BlankAt(text[1..], i - 1);
      CutAtFirst(text[1..], i - 1);
      assert text[..i] == [text[0]] + text[1..][..i - 1];
      assert text[i + 2..] == text[1..][i + 1..];
    }
  }

  lemma {:induction false} FirstBlank(text: string, i: nat) returns (f: nat)
    requires BlankAt(text, i)
    ensures f <= i && BlankAt(text, f) && forall j :: BlankAt(text, j) ==> f <= j
  {
    f := 0;
    while !BlankAt(text, f)
      invariant f <= i && forall j :: 0 <= j < f ==> !BlankAt(text, j)
      decreases i - f
    {
      f := f + 1;
    }
  }

  /** Splitting the joined text gives back title and body exactly when the title has no blank line
      and, if there is content, does not end in a newline. */
  lemma {:induction false} JoinSplitRoundTrip(title: string, content: Option<string>)
    ensures
      var body := if content.Some? then content.value else "";
      SplitArticleText(Joined(title, content)) == (title, body) <==>
        !HasBlankLine(title) && (body == "" || !EndsInNewline(title))
  {
    hide SplitArticleText;
    var body := if content.Some? then content.value else "";
    var text := Joined(title, content);
    assert text == if body != "" then title + "\n\n" + body else title;
    var n := |title|;
    if body == "" {
      if i: nat :| BlankAt(title, i) {
        var f := FirstBlank(text, i);
        CutAtFirst(text, f);
      } else {
        assert !HasBlankLine(title);
        NothingToCut(text);
      }
    } else {
      assert BlankAt(text, n);
      var f := FirstBlank(text, n);
      CutAtFirst(text, f);
      assert text[..n] == title && text[n + 2..] == body;
      if f == n {
        forall i ensures !BlankAt(title, i) {
          assert BlankAt(title, i) ==> BlankAt(text, i);
        }
        assert EndsInNewline(title) ==> BlankAt(text, n - 1);
      } else if f == n - 1 {
        assert text[f] == title[f];
      } else {
        assert text[f] == title[f] && text[f + 1] == title[f + 1];
        assert BlankAt(title, f);
      }
    }
  }

  /** Two inputs that do not come back: a title ending in a newline, and a title with a blank line. */
  lemma {:induction false} TitlesThatDoNotSurvive()
    ensures SplitArticleText(Joined("A\n", Some("B"))) == ("A", "\nB")
    ensures SplitArticleText(Joined("A\n\nB", None)) == ("A", "B")
  {
    var text := Joined("A\n", Some("B"));
    assert text == "A\n\n\nB" && text[..1] == "A" && text[3..] == "\nB";
    CutAtFirst(text, 1);
    var title := Joined("A\n\nB", None);
    assert title == "A\n\nB" && title[..1] == "A" && title[3..] == "B";
    CutAtFirst(title, 1);
  }
}

/**
 * `html_replacements`: the string-level clean-up of the rendered page. It
 * drops `<style>` elements holding only whitespace, then folds the
 * highlighter's split REPL prompt (`>>` and `>` as two operator spans) and
 * its split ellipsis (three `.` operator spans) into one unclassed span each.
 */
module Replacements {
  import opened PyStr
  import opened Html

  const StyleOpen := "<style>"
  const StyleClose := "</style>"

  const OperatorOpen := "<span class=\"o\">"
  const SpanOpen := "<span>"
  const SpanClose := "</span>"

  /** The prompt `>>>` as the highlighter splits it, and as it is folded. */
  const PromptSplit := OperatorOpen + "&gt;&gt;" + SpanClose + OperatorOpen + "&gt;" + SpanClose
  const PromptJoined := SpanOpen + "&gt;&gt;&gt;" + SpanClose

  /** The ellipsis `...` as the highlighter splits it, and as it is folded. */
  const EllipsisSplit := OperatorOpen + "." + SpanClose + OperatorOpen + "." + SpanClose + OperatorOpen + "." + SpanClose
  const EllipsisJoined := SpanOpen + "..." + SpanClose

  // ---------------------------------------------------------------------------
  // re.sub(r'<style>\s*</style>', '', html)

  /**
   * A match of the pattern starts where `<style>` is followed, after the
   * longest run of whitespace, by `</style>`; a shorter run cannot be
   * followed by `</style>`, so the greedy run is the only candidate. The
   * scan resumes after the match.
   */
  function RemoveEmptyStyles(s: string): string
    decreases |s|
  {
    if StartsWith(s, StyleOpen) && StartsWith(StripLeft(s[|StyleOpen|..]), StyleClose)
    then RemoveEmptyStyles(StripLeft(s[|StyleOpen|..])[|StyleClose|..])
    else if s == [] then []
    else [s[0]] + RemoveEmptyStyles(s[1..])
  }

  lemma StripLeftSpaces(w: string, rest: string)
    requires AllSpace(w) && rest != [] && !IsSpaceChar(rest[0])
    ensures StripLeft(w + rest) == rest
  {
    var s := w + rest;
    assert forall i :: 0 <= i < |w| ==> s[i] == w[i];
    assert s[|w|] == rest[0];
    assert LeadingSpaces(s) == |w|;
    assert s[|w|..] == rest;
  }

  /** A style element holding only whitespace, at the front, is removed whatever its whitespace. */
  lemma EmptyStyleRemoved(w: string, rest: string)
    requires AllSpace(w)
    ensures RemoveEmptyStyles(StyleOpen + w + StyleClose + rest) == RemoveEmptyStyles(rest)
  {
    var s := StyleOpen + w + StyleClose + rest;
    assert s[..|StyleOpen|] == StyleOpen;
    assert s[|StyleOpen|..] == w + (StyleClose + rest);
    StripLeftSpaces(w, StyleClose + rest);
    assert (StyleClose + rest)[..|StyleClose|] == StyleClose;
    assert (StyleClose + rest)[|StyleClose|..] == rest;
  }

  /** Text without any `<style>` is left alone. */
  lemma {:induction false} RemoveEmptyStylesAbsent(s: string)
    requires !Occurs(s, StyleOpen)
    ensures RemoveEmptyStyles(s) == s
    decreases |s|
  {
    assert !StartsWith(s[0..], StyleOpen);
    assert s[0..] == s;
    if s != [] {
      forall i | 0 <= i <= |s[1..]|
        ensures !StartsWith(s[1..][i..], StyleOpen)
      {
        assert s[1..][i..] == s[i + 1..];
      }
      RemoveEmptyStylesAbsent(s[1..]);
      assert s == [s[0]] + s[1..];
    }
  }

  // ---------------------------------------------------------------------------
  // html_replacements

  function HtmlReplacements(html: string): string {
    var h := RemoveEmptyStyles(html);
    var h := ReplaceAll(h, PromptSplit, PromptJoined);
    ReplaceAll(h, EllipsisSplit, EllipsisJoined)
  }

  /** Replacing markup by markup a reader cannot tell apart leaves the visible text as it is. */
  lemma {:induction false} ReplaceKeepsVisible(s: string, pattern: string, replacement: string, inTag: bool)
    requires |pattern| > 0 && SameToReader(pattern, replacement)
    ensures Visible(ReplaceAll(s, pattern, replacement), inTag) == Visible(s, inTag)
    ensures InTagAfter(ReplaceAll(s, pattern, replacement), inTag) == InTagAfter(s, inTag)
    decreases |s|
  {
    if StartsWith(s, pattern) {
      var rest := s[|pattern|..];
      var next := InTagAfter(pattern, inTag);
      ReplaceKeepsVisible(rest, pattern, replacement, next);
      VisibleAppend(replacement, ReplaceAll(rest, pattern, replacement), inTag);
      assert s == pattern + rest;
      VisibleAppend(pattern, rest, inTag);
    } else if s != [] {
      var next := if s[0] == '<' then true else if s[0] == '>' && inTag then false else inTag;
      ReplaceKeepsVisible(s[1..], pattern, replacement, next);
      var t := ReplaceAll(s[1..], pattern, replacement);
      assert ([s[0]] + t)[0] == s[0] && ([s[0]] + t)[1..] == t;
    }
  }

  lemma OperatorOpenHidden(inTag: bool)
    ensures Visible(OperatorOpen, inTag) == [] && !InTagAfter(OperatorOpen, inTag)
  {
    assert OperatorOpen == "<" + "span class=\"o\"" + ">";
    VisibleTag("span class=\"o\"", inTag);
  }

  lemma SpanOpenHidden(inTag: bool)
    ensures Visible(SpanOpen, inTag) == [] && !InTagAfter(SpanOpen, inTag)
  {
    assert SpanOpen == "<" + "span" + ">";
    VisibleTag("span", inTag);
  }

  lemma SpanCloseHidden(inTag: bool)
    ensures Visible(SpanClose, inTag) == [] && !InTagAfter(SpanClose, inTag)
  {
    assert SpanClose == "<" + "/span" + ">";
    VisibleTag("/span", inTag);
  }

  /** Every span tag shows nothing and ends outside a tag. */
  lemma SpanTags(inTag: bool)
    ensures Visible(OperatorOpen, inTag) == [] && !InTagAfter(OperatorOpen, inTag)
    ensures Visible(SpanOpen, inTag) == [] && !InTagAfter(SpanOpen, inTag)
    ensures Visible(SpanClose, inTag) == [] && !InTagAfter(SpanClose, inTag)
  {
    OperatorOpenHidden(inTag);
    SpanOpenHidden(inTag);
    SpanCloseHidden(inTag);
  }

  /** Text between tags, shown as it is. */
  lemma Between(text: string)
    requires Plain(text)
    ensures Visible(text + SpanClose, false) == text && !InTagAfter(text + SpanClose, false)
  {
    VisiblePlain(text);
    VisibleAppend(text, SpanClose, false);
    SpanTags(false);
  }

  /** An element of one span: its tags show nothing, its text is shown. */
  lemma OneSpan(open: string, text: string, inTag: bool)
    requires open == OperatorOpen || open == SpanOpen
    requires Plain(text)
    ensures Visible(open + text + SpanClose, inTag) == text && !InTagAfter(open + text + SpanClose, inTag)
  {
    SpanTags(inTag);
    Between(text);
    assert open + text + SpanClose == open + (text + SpanClose);
    VisibleAppend(open, text + SpanClose, inTag);
  }

  lemma Two(a: string, b: string, inTag: bool)
    requires !InTagAfter(a, inTag)
    ensures Visible(a + b, inTag) == Visible(a, inTag) + Visible(b, false)
    ensures InTagAfter(a + b, inTag) == InTagAfter(b, false)
  {
    VisibleAppend(a, b, inTag);
  }

  /** The folded prompt shows the same `&gt;&gt;&gt;` as the split one. */
  lemma PromptFoldInvisible()
    ensures SameToReader(PromptSplit, PromptJoined)
  {
    forall inTag: bool
      ensures Visible(PromptSplit, inTag) == Visible(PromptJoined, inTag)
      ensures InTagAfter(PromptSplit, inTag) == InTagAfter(PromptJoined, inTag)
    {
      var first := OperatorOpen + "&gt;&gt;" + SpanClose;
      var second := OperatorOpen + "&gt;" + SpanClose;
      assert PromptSplit == first + second;
      OneSpan(OperatorOpen, "&gt;&gt;", inTag);
      OneSpan(OperatorOpen, "&gt;", false);
      Two(first, second, inTag);
      OneSpan(SpanOpen, "&gt;&gt;&gt;", inTag);
    }
  }

  /** The folded ellipsis shows the same `...` as the split one. */
  lemma EllipsisFoldInvisible()
    ensures SameToReader(EllipsisSplit, EllipsisJoined)
  {
    forall inTag: bool
      ensures Visible(EllipsisSplit, inTag) == Visible(EllipsisJoined, inTag)
      ensures InTagAfter(EllipsisSplit, inTag) == InTagAfter(EllipsisJoined, inTag)
    {
      var dot := OperatorOpen + "." + SpanClose;
      assert EllipsisSplit == dot + (dot + dot);
      OneSpan(OperatorOpen, ".", inTag);
      OneSpan(OperatorOpen, ".", false);
      Two(dot, dot, false);
      Two(dot, dot + dot, inTag);
      OneSpan(SpanOpen, "...", inTag);
    }
  }

  /** After the style clean-up, `html_replacements` changes markup only: the page shows the same text. */
  lemma HtmlReplacementsVisible(html: string, inTag: bool)
    ensures Visible(HtmlReplacements(html), inTag) == Visible(RemoveEmptyStyles(html), inTag)
  {
    var h1 := RemoveEmptyStyles(html);
    var h2 := ReplaceAll(h1, PromptSplit, PromptJoined);
    PromptFoldInvisible();
    EllipsisFoldInvisible();
    ReplaceKeepsVisible(h1, PromptSplit, PromptJoined, inTag);
    ReplaceKeepsVisible(h2, EllipsisSplit, EllipsisJoined, inTag);
  }

  /** A page with no `<style>`, no split prompt and no split ellipsis comes out unchanged. */
  lemma HtmlReplacementsAbsent(html: string)
    requires !Occurs(html, StyleOpen) && !Occurs(html, PromptSplit) && !Occurs(html, EllipsisSplit)
    ensures HtmlReplacements(html) == html
  {
    RemoveEmptyStylesAbsent(html);
    ReplaceAllAbsent(html, PromptSplit, PromptJoined);
    ReplaceAllAbsent(html, EllipsisSplit, EllipsisJoined);
  }
}

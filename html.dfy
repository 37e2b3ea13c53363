/**
 * The text a reader sees of a piece of HTML: every character outside `<...>`
 * tags. The markup rewrites in vmarkdown.py promise to change tags and
 * classes but not this text.
 */
module Html {

  /** The visible characters of s, when s starts inside a tag (inTag) or outside one. */
  function Visible(s: string, inTag: bool): string
    decreases |s|
  {
    if s == [] then []
    else if s[0] == '<' then Visible(s[1..], true)
    else if s[0] == '>' && inTag then Visible(s[1..], false)
    else if inTag then Visible(s[1..], true)
    else [s[0]] + Visible(s[1..], false)
  }

  /** Whether the reader is inside a tag after s. */
  function InTagAfter(s: string, inTag: bool): bool
    decreases |s|
  {
    if s == [] then inTag
    else if s[0] == '<' then InTagAfter(s[1..], true)
    else if s[0] == '>' && inTag then InTagAfter(s[1..], false)
    else InTagAfter(s[1..], inTag)
  }

  lemma {:induction false} VisibleAppend(a: string, b: string, inTag: bool)
    ensures Visible(a + b, inTag) == Visible(a, inTag) + Visible(b, InTagAfter(a, inTag))
    ensures InTagAfter(a + b, inTag) == InTagAfter(b, InTagAfter(a, inTag))
    decreases |a|
  {
    if a == [] {
      assert a + b == b;
    } else {
      assert (a + b)[0] == a[0] && (a + b)[1..] == a[1..] + b;
      var next := if a[0] == '<' then true else if a[0] == '>' && inTag then false else inTag;
      VisibleAppend(a[1..], b, next);
    }
  }

  /** Text with no angle brackets. */
  predicate Plain(s: string) {
    forall i :: 0 <= i < |s| ==> s[i] != '<' && s[i] != '>'
  }

  /** Outside a tag, plain text is shown as it is. */
  lemma {:induction false} VisiblePlain(s: string)
    requires Plain(s)
    ensures Visible(s, false) == s && !InTagAfter(s, false)
    decreases |s|
  {
    if s != [] {
      VisiblePlain(s[1..]);
    }
  }

  /** Inside a tag, everything up to the first `>` is hidden. */
  lemma {:induction false} HiddenInTag(s: string)
    requires forall i :: 0 <= i < |s| ==> s[i] != '>'
    ensures Visible(s, true) == [] && InTagAfter(s, true)
    decreases |s|
  {
    if s != [] {
      HiddenInTag(s[1..]);
    }
  }

  /** A tag shows nothing and leaves the reader outside any tag, wherever it starts. */
  lemma VisibleTag(inner: string, inTag: bool)
    requires forall i :: 0 <= i < |inner| ==> inner[i] != '>'
    ensures Visible("<" + inner + ">", inTag) == [] && !InTagAfter("<" + inner + ">", inTag)
  {
    var rest := inner + ">";
    assert "<" + inner + ">" == "<" + rest;
    assert ("<" + rest)[0] == '<' && ("<" + rest)[1..] == rest;
    HiddenInTag(inner);
    VisibleAppend(inner, ">", true);
    assert Visible(">", true) == [] && !InTagAfter(">", true);
  }

  /** Markup that shows nothing and ends outside a tag, read from outside a tag. */
  predicate Hidden(s: string) {
    Visible(s, false) == [] && !InTagAfter(s, false)
  }

  lemma HiddenAppend(a: string, b: string)
    requires Hidden(a) && Hidden(b)
    ensures Hidden(a + b)
  {
    VisibleAppend(a, b, false);
  }

  /** Hidden markup around a piece that ends outside a tag adds nothing a reader sees. */
  lemma Around(open: string, body: string, close: string)
    requires Hidden(open) && !InTagAfter(body, false) && Hidden(close)
    ensures Visible(open + body + close, false) == Visible(body, false) && !InTagAfter(open + body + close, false)
  {
    VisibleAppend(open, body, false);
    VisibleAppend(open + body, close, false);
  }

  /** Plain text between two hidden pieces of markup is all a reader sees of them. */
  lemma Wrapped(open: string, body: string, close: string)
    requires Hidden(open) && Plain(body) && Hidden(close)
    ensures Visible(open + body + close, false) == body && !InTagAfter(open + body + close, false)
  {
    VisiblePlain(body);
    Around(open, body, close);
  }

  /** Two pieces of markup a reader cannot tell apart, whatever comes before them. */
  predicate SameToReader(a: string, b: string) {
    Visible(a, false) == Visible(b, false) && InTagAfter(a, false) == InTagAfter(b, false) &&
    Visible(a, true) == Visible(b, true) && InTagAfter(a, true) == InTagAfter(b, true)
  }
}

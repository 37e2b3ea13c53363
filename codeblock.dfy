/**
 * `SyntaxHighlighting._block_code`: a fenced code block becomes a plain
 * `<pre><code>` when it names no language, a highlighted `<div>` of token
 * spans when the highlighter can lex it, and a `<pre class>` fallback when
 * the highlighter raises.
 *
 * The highlighter is represented by what it yields: no lexer for the
 * language, a full token stream, or the tokens yielded before the token
 * stream raised. The class table and the two escape functions are
 * parameters.
 */
module CodeBlock {
  import opened PyStr
  import opened Html

  /** A token as the highlighter yields it: its token type and its text. */
  datatype Token = Token(kind: string, text: string)

  datatype Lexing = NoLexer | Lexed(tokens: seq<Token>) | FailedAfter(yielded: seq<Token>)

  /** `STANDARD_TYPES.get(kind, '')` and the two escapes. */
  datatype Env = Env(cssClass: string -> string, htmlEscape: string -> string, escape: string -> string)

  // ---------------------------------------------------------------------------
  // The token loop

  /** What one token contributes: whitespace-only text as it is, anything else as a classed span. */
  function Element(env: Env, t: Token): string {
    if IsSpace(t.text) then t.text
    else "<span class=\"" + env.cssClass(t.kind) + "\">" + env.htmlEscape(t.text) + "</span>"
  }

  function Elements(env: Env, tokens: seq<Token>): (r: seq<string>)
    ensures |r| == |tokens| && forall i :: 0 <= i < |r| ==> r[i] == Element(env, tokens[i])
  {
    seq(|tokens|, i requires 0 <= i < |tokens| => Element(env, tokens[i]))
  }

  /** `''.join(elements)` once every token has been visited. */
  function Markup(env: Env, tokens: seq<Token>): string {
    Concat(Elements(env, tokens))
  }

  /** The loop of `_block_code` that builds the list of elements, then joins it. */
  method JoinTokens(env: Env, tokens: seq<Token>) returns (code: string)
    ensures code == Markup(env, tokens)
  {
    var elements: seq<string> := [];
    for i := 0 to |tokens|
      invariant elements == Elements(env, tokens[..i])
    {
      var t := tokens[i];
      if IsSpace(t.text) {
        elements := elements + [t.text];
        continue;
      }
      var element := "<span class=\"" + env.cssClass(t.kind) + "\">" + env.htmlEscape(t.text) + "</span>";
      elements := elements + [element];
    }
    assert tokens[..|tokens|] == tokens;
    code := Concat(elements);
  }

  // ---------------------------------------------------------------------------
  // The whole block

  /** `<pre class="{lang}"><code>{escape(text)}</code></pre>`, the fallback when highlighting raises. */
  function Fallback(env: Env, lang: string, text: string): string {
    "<pre class=\"" + lang + "\">" + "<code>" + env.escape(text) + "</code>" + "</pre>" + "\n"
  }

  /** `' '.join(['highlight', lang.lower()])`: the `if lang` guard always holds past the early return. */
  function DivClass(lang: string): string {
    Join(["highlight", Lower(lang)], " ")
  }

  function Highlighted(env: Env, lang: string, tokens: seq<Token>): string {
    "<div class=\"" + DivClass(lang) + "\">" + "<pre>" + Markup(env, tokens) + "</pre>" + "</div>"
  }

  /** `<pre><code>{escape(text.strip())}</code></pre>`, for a block that names no language. */
  function Unhighlighted(env: Env, text: string): string {
    "<pre>" + "<code>" + env.escape(Strip(text)) + "</code>" + "</pre>" + "\n"
  }

  /**
   * `_block_code` as written. The token loop rebinds `text`, so when the
   * token stream raises after yielding tokens the fallback escapes the last
   * token's text instead of the block.
   */
  function BlockCodeAsWritten(env: Env, text: string, lang: string, lexing: Lexing): string {
    if lang == "" then Unhighlighted(env, text)
    else match lexing
      case NoLexer => Fallback(env, lang, text)
      case Lexed(tokens) => Highlighted(env, lang, tokens)
      case FailedAfter(yielded) =>
        Fallback(env, lang, if yielded == [] then text else yielded[|yielded| - 1].text)
  }

  /** `_block_code` with the fallback escaping the block it was given, whatever the highlighter yielded. */
  function BlockCode(env: Env, text: string, lang: string, lexing: Lexing): string {
    if lang == "" then Unhighlighted(env, text)
    else match lexing
      case NoLexer => Fallback(env, lang, text)
      case Lexed(tokens) => Highlighted(env, lang, tokens)
      case FailedAfter(_) => Fallback(env, lang, text)
  }

  // ---------------------------------------------------------------------------
  // What a reader sees

  /** Escaping yields text without angle brackets, and class names hold no `>`. */
  ghost predicate Sane(env: Env) {
    (forall s :: Plain(env.htmlEscape(s))) && (forall s :: Plain(env.escape(s))) &&
    forall k :: Plain(env.cssClass(k))
  }

  /** The text a reader sees of one token: whitespace as it is, anything else escaped. */
  function Shown(env: Env, t: Token): string {
    if IsSpace(t.text) then t.text else env.htmlEscape(t.text)
  }

  function ShownAll(env: Env, tokens: seq<Token>): string
    decreases |tokens|
  {
    if tokens == [] then "" else ShownAll(env, tokens[..|tokens| - 1]) + Shown(env, tokens[|tokens| - 1])
  }

  lemma SpacePlain(s: string)
    requires AllSpace(s)
    ensures Plain(s)
  {
    forall i | 0 <= i < |s|
      ensures s[i] != '<' && s[i] != '>'
    {
      assert IsSpaceChar(s[i]);
    }
  }

  lemma PlainAppend(a: string, b: string)
    requires Plain(a) && Plain(b)
    ensures Plain(a + b)
  {
    forall i | 0 <= i < |a + b|
      ensures (a + b)[i] != '<' && (a + b)[i] != '>'
    {
      if i >= |a| {
        assert (a + b)[i] == b[i - |a|];
      }
    }
  }

  /** The closing tags and the bare opening tags the block markup uses. */
  lemma BareTags()
    ensures Hidden("<code>") && Hidden("</code>") && Hidden("<pre>") && Hidden("</pre>")
    ensures Hidden("</span>") && Hidden("</div>")
  {
    VisibleTag("pre", false);
    assert "<pre>" == "<" + "pre" + ">";
    VisibleTag("/div", false);
    assert "</div>" == "<" + "/div" + ">";
    VisibleTag("code", false);
    assert "<code>" == "<" + "code" + ">";
    VisibleTag("/code", false);
    assert "</code>" == "<" + "/code" + ">";
    VisibleTag("/pre", false);
    assert "</pre>" == "<" + "/pre" + ">";
    VisibleTag("/span", false);
    assert "</span>" == "<" + "/span" + ">";
  }

  /** An opening tag with a plain class attribute shows nothing. */
  lemma ClassTagHidden(name: string, value: string)
    requires name == "pre" || name == "span" || name == "div"
    requires Plain(value)
    ensures Hidden("<" + name + " class=\"" + value + "\">")
  {
    var inner := name + " class=\"" + value + "\"";
    PlainAppend(name + " class=\"", value);
    PlainAppend(name + " class=\"" + value, "\"");
    assert "<" + name + " class=\"" + value + "\">" == "<" + inner + ">";
    VisibleTag(inner, false);
  }

  /** One token's element shows exactly the token's shown text. */
  lemma ElementVisible(env: Env, t: Token)
    requires Sane(env)
    ensures Visible(Element(env, t), false) == Shown(env, t) && !InTagAfter(Element(env, t), false)
  {
    if IsSpace(t.text) {
      SpacePlain(t.text);
      VisiblePlain(t.text);
    } else {
      var value := env.cssClass(t.kind);
      assert Plain(value) && Plain(env.htmlEscape(t.text));
      ClassTagHidden("span", value);
      assert "<span class=\"" + value + "\">" == "<" + "span" + " class=\"" + value + "\">";
      BareTags();
      Wrapped("<span class=\"" + value + "\">", env.htmlEscape(t.text), "</span>");
    }
  }

  /** The highlighted code shows the tokens' text, escaped, in order: only markup is added. */
  lemma {:induction false} MarkupVisible(env: Env, tokens: seq<Token>)
    requires Sane(env)
    ensures Visible(Markup(env, tokens), false) == ShownAll(env, tokens)
    ensures !InTagAfter(Markup(env, tokens), false)
    decreases |tokens|
  {
    if tokens != [] {
      var n := |tokens| - 1;
      var init := tokens[..n];
      var m, e := Markup(env, init), Element(env, tokens[n]);
      assert Visible(m, false) == ShownAll(env, init) && !InTagAfter(m, false) by {
        MarkupVisible(env, init);
      }
      assert Visible(e, false) == Shown(env, tokens[n]) && !InTagAfter(e, false) by {
        ElementVisible(env, tokens[n]);
      }
      MarkupSnoc(env, tokens);
      VisibleAppend(m, e, false);
    }
  }

  /** The markup of a non-empty token list is that of all but the last token, then the last token's element. */
  lemma MarkupSnoc(env: Env, tokens: seq<Token>)
    requires tokens != []
    ensures Markup(env, tokens) == Markup(env, tokens[..|tokens| - 1]) + Element(env, tokens[|tokens| - 1])
  {
    var n := |tokens| - 1;
    assert Elements(env, tokens)[..n] == Elements(env, tokens[..n]);
  }

  /** The markup around the fallback's text shows nothing. */
  lemma FallbackTags(lang: string)
    requires Plain(lang)
    ensures Hidden("<pre class=\"" + lang + "\">" + "<code>") && Hidden("</code>" + "</pre>")
  {
    var open := "<pre class=\"" + lang + "\">";
    ClassTagHidden("pre", lang);
    assert open == "<" + "pre" + " class=\"" + lang + "\">";
    BareTags();
    HiddenAppend(open, "<code>");
    HiddenAppend("</code>", "</pre>");
  }

  /** A fallback shows the escaped text it was given, followed by the newline. */
  lemma FallbackVisible(env: Env, lang: string, text: string)
    requires Sane(env) && Plain(lang)
    ensures Visible(Fallback(env, lang, text), false) == env.escape(text) + "\n"
  {
    var open := "<pre class=\"" + lang + "\">" + "<code>";
    var close := "</code>" + "</pre>";
    var body := env.escape(text);
    FallbackTags(lang);
    assert Fallback(env, lang, text) == open + body + close + "\n";
    WrappedLine(open, body, close);
  }

  lemma {:induction false} LowerPlain(s: string)
    requires Plain(s)
    ensures Plain(Lower(s))
    decreases |s|
  {
    if s != [] {
      LowerPlain(s[1..]);
      assert Plain(LowerChar(s[0]));
      PlainAppend(LowerChar(s[0]), Lower(s[1..]));
    }
  }

  /** The division's classes: `highlight`, a space, and the language in lower case. */
  lemma DivClassOf(lang: string)
    ensures DivClass(lang) == "highlight" + " " + Lower(lang)
  {
    var pieces := ["highlight", Lower(lang)];
    assert pieces[1..] == [Lower(lang)];
    assert Join(pieces[1..], " ") == Lower(lang);
    assert pieces[0] == "highlight";
  }

  lemma HighlightTags(lang: string)
    requires Plain(lang)
    ensures Hidden("<div class=\"" + DivClass(lang) + "\">" + "<pre>") && Hidden("</pre>" + "</div>")
  {
    LowerPlain(lang);
    DivClassOf(lang);
    PlainAppend("highlight" + " ", Lower(lang));
    var open := "<div class=\"" + DivClass(lang) + "\">";
    ClassTagHidden("div", DivClass(lang));
    assert open == "<" + "div" + " class=\"" + DivClass(lang) + "\">";
    BareTags();
    HiddenAppend(open, "<pre>");
    HiddenAppend("</pre>", "</div>");
  }

  /** A highlighted block shows exactly its tokens' text, escaped, in order. */
  lemma HighlightedVisible(env: Env, text: string, lang: string, tokens: seq<Token>)
    requires Sane(env) && Plain(lang) && lang != ""
    ensures Visible(BlockCode(env, text, lang, Lexed(tokens)), false) == ShownAll(env, tokens)
  {
    HighlightTags(lang);
    MarkupVisible(env, tokens);
    var open := "<div class=\"" + DivClass(lang) + "\">" + "<pre>";
    var close := "</pre>" + "</div>";
    Around(open, Markup(env, tokens), close);
    assert Highlighted(env, lang, tokens) == open + Markup(env, tokens) + close;
  }

  /** A block naming no language shows its text with surrounding whitespace stripped, escaped. */
  lemma UnhighlightedVisible(env: Env, text: string, lexing: Lexing)
    requires Sane(env)
    ensures Visible(BlockCode(env, text, "", lexing), false) == env.escape(Strip(text)) + "\n"
  {
    var open, close := "<pre>" + "<code>", "</code>" + "</pre>";
    assert Hidden(open) && Hidden(close) by {
      BareTags();
      HiddenAppend("<pre>", "<code>");
      HiddenAppend("</code>", "</pre>");
    }
    var body := env.escape(Strip(text));
    assert Unhighlighted(env, text) == open + body + close + "\n";
    WrappedLine(open, body, close);
  }

  /** Hidden markup around plain text, then a newline: the reader sees the text and the newline. */
  lemma WrappedLine(open: string, body: string, close: string)
    requires Hidden(open) && Plain(body) && Hidden(close)
    ensures Visible(open + body + close + "\n", false) == body + "\n"
  {
    Wrapped(open, body, close);
    VisibleAppend(open + body + close, "\n", false);
    VisiblePlain("\n");
  }

  /** When the highlighter raises, the reader sees the whole block, escaped. */
  lemma FailureShowsBlock(env: Env, text: string, lang: string, lexing: Lexing)
    requires Sane(env) && Plain(lang) && lang != "" && !lexing.Lexed?
    ensures Visible(BlockCode(env, text, lang, lexing), false) == env.escape(text) + "\n"
  {
    FallbackVisible(env, lang, text);
  }

  /** As written, a token stream that raises after yielding tokens shows only the last token's text. */
  lemma AsWrittenShowsLastToken(env: Env, text: string, lang: string, yielded: seq<Token>)
    requires Sane(env) && Plain(lang) && lang != "" && yielded != []
    ensures Visible(BlockCodeAsWritten(env, text, lang, FailedAfter(yielded)), false) ==
      env.escape(yielded[|yielded| - 1].text) + "\n"
  {
    FallbackVisible(env, lang, yielded[|yielded| - 1].text);
  }

  /** Wherever the highlighter succeeds, or does not exist, both definitions agree. */
  lemma AsWrittenAgrees(env: Env, text: string, lang: string, lexing: Lexing)
    requires lang == "" || !lexing.FailedAfter? || lexing.yielded == []
    ensures BlockCodeAsWritten(env, text, lang, lexing) == BlockCode(env, text, lang, lexing)
  {
  }

  /**
   * A block `a b` in language `py` whose token stream raises after yielding
   * the token `a`: as written, the fallback holds `a` alone.
   */
  lemma AsWrittenLosesText()
    ensures var env := Env(k => "", s => s, s => s);
      var lexing := FailedAfter([Token("Name", "a")]);
      BlockCodeAsWritten(env, "a b", "py", lexing) != BlockCode(env, "a b", "py", lexing)
  {
    var env := Env(k => "", s => s, s => s);
    var lexing := FailedAfter([Token("Name", "a")]);
    assert |BlockCodeAsWritten(env, "a b", "py", lexing)| == |Fallback(env, "py", "a")|;
    assert |BlockCode(env, "a b", "py", lexing)| == |Fallback(env, "py", "a b")|;
    assert |Fallback(env, "py", "a")| + 2 == |Fallback(env, "py", "a b")|;
  }
}

# vmarkdown: header anchors, table of contents and highlight clean-up

This project models, in Dafny, the document post-processing of
`voussoir.net/writing/vmarkdown.py`, the markdown-to-HTML renderer of the
voussoir.net site, and proves properties of the model. It covers:

- **Slugs and header anchors** (`slugify`, `uniqify_slug`,
  `add_header_anchors`): every `h1`–`h6` gets an id made of `[a-z0-9_]`,
  made unique with `_2`, `_3`, … against a set that grows during the pass,
  plus a trailing pilcrow link to `#id` (`slugs.dfy`, `anchors.dfy`).
- **Table of contents** (`add_toc`): a cursor over nested ordered lists,
  each recording a heading level; the build is a zipper (the finished root
  items plus the chain of open lists down to the cursor) (`toc.dfy`). The
  pass order of `markdown()` (anchors before the table) is in
  `pipeline.dfy`.
- **Highlight-span reclassification** (`fix_classes` and the scans it runs):
  the children of a `<pre>` are a sequence of `Text(s)` and
  `Span(classes, text)` nodes; an explicit index cursor replaces
  `nextSibling` (`siblings.dfy`, `retag.dfy`, `repl.dfy`, `argscans.dfy`,
  `fixclasses.dfy`).
- **String pieces**: `html_replacements` (`replacements.dfy`), the inline
  grammar's rule order and outputs (`inline.dfy`), and the token loop of
  `SyntaxHighlighting._block_code` (`codeblock.dfy`). `html.dfy` defines the
  text a reader sees of a piece of HTML, used to state that markup rewrites
  keep it; `pystr.dfy` holds the Python `str` operations the source uses.

The loops of the source (`uniqify_slug`, `add_header_anchors`, the `add_toc`
heading loop and climb, the sibling walks, `remove_leading_empty_nodes`, the
`fix_*` scans, the token loop) are methods with loop invariants, each proved
equal to a specification function about which the properties are lemmas.
The source works on a mutable BeautifulSoup tree; here each pass takes and
returns values (the heading list, the child lists of the `<pre>` blocks).

Where the def and call scans would raise (running off the end of the block,
reading `element['class']` of an element that has none, an unbound
`last_known_candidate`, a `remove` of an absent class), the scan method has a
`requires` that excludes it, and the `fix_classes` driver returns `None`
instead. `fix_repl_classes` never raises: it only deletes the attribute, and
deleting an absent attribute does nothing, so it is modelled on every input.

## Model

| member | source | states |
|---|---|---|
| Slugs.Slugify | voussoir.net/writing/vmarkdown.py:338-346 | the slug holds only characters of `SLUG_CHARACTERS` (`[a-z0-9_]`) |
| Slugs.SlugifyFixesSlugs | voussoir.net/writing/vmarkdown.py:338-346 | a string made only of slug characters is its own slug |
| Slugs.SlugifyIdempotent | voussoir.net/writing/vmarkdown.py:338-346 | slugifying a slug changes nothing |
| Slugs.SlugifyAppend | voussoir.net/writing/vmarkdown.py:342-345 | the slug of a concatenation is the concatenation of the slugs (the pass is character by character) |
| Slugs.SuffixedInjective | voussoir.net/writing/vmarkdown.py:355 | `slug_j == slug_k` only when `j == k`, so every suffix tried is new |
| Slugs.FirstFreeIndex | voussoir.net/writing/vmarkdown.py:352-356 | the counter stops at the least `m >= k` whose suffixed slug is unused; it terminates because the used set is finite and every suffix tried is a new member of it |
| Slugs.UniqueSlug | voussoir.net/writing/vmarkdown.py:348-359 | the result is unused; it is `slug` when `slug` is unused, otherwise `slug_k` with every `slug_j`, `2 <= j < k`, already used |
| Slugs.FirstFreeIndexIsLeast | voussoir.net/writing/vmarkdown.py:352-356 | any free suffix with every smaller one (from 2) taken is the one chosen |
| Slugs.UniqifySlug | voussoir.net/writing/vmarkdown.py:348-359 | the `while` loop returns `UniqueSlug`, which was not in the set, and the set afterwards is the old set plus exactly that slug |
| Anchors.Captions | voussoir.net/writing/vmarkdown.py:172-173 | the text nodes the appended links contribute, one per link, in order |
| Anchors.AssignIdsDistinct | voussoir.net/writing/vmarkdown.py:160-166 | the ids handed out in one pass are pairwise distinct |
| Anchors.NextNumbered | voussoir.net/writing/vmarkdown.py:352-356 | after `s, s_2, …, s_(n-1)` are taken, the next heading slugifying to `s` gets `s_n` |
| Anchors.IdenticalHeadingsNumbered | voussoir.net/writing/vmarkdown.py:160-166 | n headings that all slugify to `s` get `s, s_2, …, s_n` in document order |
| Anchors.AddHeaderAnchors | voussoir.net/writing/vmarkdown.py:155-173 | each heading gets the id the pass hands out and exactly one extra trailing link with `href == "#" + id` and class `header_anchor_link`; ids are pairwise distinct |
| Toc.FirstH1 | voussoir.net/writing/vmarkdown.py:180-182 | `soup.h1`: the first heading of level 1, or none when there is no h1 |
| Toc.LevelPatternIsBound | voussoir.net/writing/vmarkdown.py:197 | for a maximum of 1 to 9 the pattern `^h[1-{max_level}]$` admits exactly the levels up to it |
| Toc.LevelPatternForTen | voussoir.net/writing/vmarkdown.py:197 | a maximum of 10 gives the class `[1-10]`, which admits only h1 |
| Toc.OnlyFirstH1Skipped | voussoir.net/writing/vmarkdown.py:207-208 | once ids are distinct, the value comparison `header == first_h1` holds of the first h1 and no other heading |
| Toc.Ascend | voussoir.net/writing/vmarkdown.py:229-231 | the cursor moves one list up; the root level is kept |
| Toc.AscendPreserves | voussoir.net/writing/vmarkdown.py:229-231 | climbing keeps the builder's invariant (levels strictly increase along the cursor path, open lists non-empty, nesting below deeper) and the preorder of entries |
| Toc.AppendPreserves | voussoir.net/writing/vmarkdown.py:258 | appending at the cursor keeps the invariant and adds one entry at the end of the preorder, at the cursor's level |
| Toc.DescendAppendPreserves | voussoir.net/writing/vmarkdown.py:245-258 | a deeper heading opens a list recording its level under the cursor list's last item; the entry lands there, at the end of the preorder |
| Toc.Climb | voussoir.net/writing/vmarkdown.py:222-231 | the climb stops at a list whose level is at most the heading's, keeping the invariant and the preorder |
| Toc.Step | voussoir.net/writing/vmarkdown.py:206-258 | one heading: the root takes the first heading's level, the invariant is kept, and the entry is added at the end of the preorder at the heading's level |
| Toc.Built | voussoir.net/writing/vmarkdown.py:205-258 | building from entries none shallower than the first gives a valid builder whose preorder is exactly those entries |
| Toc.Close | voussoir.net/writing/vmarkdown.py:252-256 | attaching every open list gives root items whose preorder is the builder's and whose nested lists are deeper than their parents |
| Toc.PlaceEntry | voussoir.net/writing/vmarkdown.py:219-258 | the loop body with its `while` climb computes `Step` |
| Toc.VisitHeading | voussoir.net/writing/vmarkdown.py:206-216 | a heading is skipped when it is the first h1 or fails the level pattern, otherwise placed with its first string and `#id` |
| Toc.BuildToc | voussoir.net/writing/vmarkdown.py:205-258 | the heading loop computes `Built` of the qualifying headings' entries |
| Toc.AddToc | voussoir.net/writing/vmarkdown.py:175-263 | no h1: untouched (whatever `max_level`); `max_level < 1`: the error, before any change; otherwise the built table placed after the first h1 |
| Toc.AddTocSpecPromises | voussoir.net/writing/vmarkdown.py:180-258 | the preorder of the placed table is exactly the qualifying headings (level pattern, not the first h1), each once, in document order, each linking to `#id`, and nested lists record deeper levels than their parents |
| Toc.ClimbAsWrittenNeverExits | voussoir.net/writing/vmarkdown.py:222-243 | at the root list with a heading shallower than its level, the loop as written never leaves: after any number of passes the builder is unchanged and the guard still holds |
| Toc.ClimbAsWrittenReachesClimb | voussoir.net/writing/vmarkdown.py:222-243 | where the heading is not shallower than the root, the loop as written ends in the state `Climb` describes |
| Toc.ClimbIntended | voussoir.net/writing/vmarkdown.py:232-243 | the climb the comment describes: on reaching the root it records the heading's level there and stops; the entries are kept |
| Toc.StepIntended | voussoir.net/writing/vmarkdown.py:232-258 | one heading with the intended climb adds its entry at the end, for any order of levels |
| Toc.BuiltIntended | voussoir.net/writing/vmarkdown.py:205-258 | with the intended climb every heading gets an entry, in order, whatever the order of levels |
| Toc.AddTocIntended | voussoir.net/writing/vmarkdown.py:175-263 | with the intended climb: untouched iff no h1, the error iff `max_level < 1`, otherwise every qualifying heading once, in order, nested lists deeper than parents |
| Toc.BuiltAgrees | voussoir.net/writing/vmarkdown.py:222-243 | where the source terminates, the intended build and the build as written are equal |
| Toc.AddTocAgrees | voussoir.net/writing/vmarkdown.py:175-263 | where the source terminates, `add_toc` with the intended climb gives the same table |
| Toc.NestedExample | voussoir.net/writing/vmarkdown.py:219-258 | h1 Intro, h2 A, h3 A.1, h2 B: the table goes after Intro; the root holds A and B; A holds a one-item list with A.1; B holds none |
| Toc.OutOfOrderAsWrittenHangs | voussoir.net/writing/vmarkdown.py:241-243 | h4 X, h1 Title, h1 Y: after X the climb for Y never leaves the root |
| Toc.OutOfOrderIntended | voussoir.net/writing/vmarkdown.py:232-240 | h4 X, h1 Title, h1 Y with the intended climb: X and Y side by side in the root list |
| Pipeline.AnchoredIds | voussoir.net/writing/vmarkdown.py:160-166 | after the anchor pass every heading has an id and no two share one |
| Pipeline.AnchoredQualifies | voussoir.net/writing/vmarkdown.py:206-208 | after the anchor pass a heading gets a table entry exactly when it is not the first h1 and passes the level pattern |
| Pipeline.AnchorsThenToc | voussoir.net/writing/vmarkdown.py:549-550 | anchors then table: distinct ids, and the table built from the anchored headings |
| Siblings.NextElement | voussoir.net/writing/vmarkdown.py:310-318 | the first element after the position, with only strings in between; none when only strings follow |
| Siblings.PrevElement | voussoir.net/writing/vmarkdown.py:320-325 | the last element before the position, with only strings in between; none when only strings precede |
| Siblings.NextThenPrev | voussoir.net/writing/vmarkdown.py:310-325 | stepping forward then back from an element returns to it |
| Siblings.NextElementSibling | voussoir.net/writing/vmarkdown.py:310-318 | the walk computes `NextElement` |
| Siblings.PreviousElementSibling | voussoir.net/writing/vmarkdown.py:320-325 | the walk computes `PrevElement` |
| Siblings.WithoutLeadingEmpty | voussoir.net/writing/vmarkdown.py:327-336 | a suffix of the children; everything dropped had empty text; the first kept child has text |
| Siblings.RemoveLeadingEmptyNodes | voussoir.net/writing/vmarkdown.py:327-336 | the popping loop computes `WithoutLeadingEmpty` |
| Retag.RetagNode | voussoir.net/writing/vmarkdown.py:494-504 | a span with the rule's class whose text is one of its words gets exactly the rule's new class list; any other node is unchanged |
| Retag.RetagBlock | voussoir.net/writing/vmarkdown.py:494-496 | one pass retags every span of the block it fires on and nothing else |
| Retag.RetagPass | voussoir.net/writing/vmarkdown.py:494-504 | one pass over every block of the document |
| Retag.RetagAllEffect | voussoir.net/writing/vmarkdown.py:494-504 | `k` def/class becomes `['kd']`, `bp` None/True/False becomes `['m']`, `o` punctuation becomes `['n']`; every other node keeps its classes |
| Retag.RetagAllIdempotent | voussoir.net/writing/vmarkdown.py:494-504 | running the three passes again changes nothing |
| Retag.RetagDoc | voussoir.net/writing/vmarkdown.py:494-504 | the three passes in order give `RetagAll` of every node |
| Repl.LineStart | voussoir.net/writing/vmarkdown.py:459-464 | the first child of a line: after the last newline-ending child, none of those between ends a line |
| Repl.DelStylesByLine | voussoir.net/writing/vmarkdown.py:458-464 | the `del_styles` flag is undetermined on a newline-ending child, otherwise true exactly when the line's first child is neither `>>>` nor `...` |
| Repl.StripOutputLines | voussoir.net/writing/vmarkdown.py:458-470 | the loop removes the class attribute of exactly the spans on output lines |
| Repl.FixReplClasses | voussoir.net/writing/vmarkdown.py:450-470 | the leading empty children go; outside a session nothing else changes; in one, exactly the spans on output lines lose their class |
| Repl.NotSessionUntouched | voussoir.net/writing/vmarkdown.py:455-456 | when the first child is not `>>>` the children stay as they are |
| Repl.NeverStripped | voussoir.net/writing/vmarkdown.py:460-467 | strings, newline-ending children and every child of a prompt line keep their classes |
| Repl.FirstLineKept | voussoir.net/writing/vmarkdown.py:455-470 | the first line of a session keeps all its classes |
| Repl.ClasslessKept | voussoir.net/writing/vmarkdown.py:469-470 | deleting the class of a span that has none leaves it as it is |
| Repl.ReplFixedSameShape | voussoir.net/writing/vmarkdown.py:450-470 | the fix changes only class attributes |
| ArgScans.RemoveFirst | voussoir.net/writing/vmarkdown.py:400 | `list.remove`: when present, the first occurrence is dropped and the other classes keep their order (one occurrence fewer); the list unchanged otherwise |
| ArgScans.ArgClassesSingle | voussoir.net/writing/vmarkdown.py:427-436 | on one-class spans: `n`→`narg`, `bp`→`narg`, `o` `*`/`**`→`n`, anything else unchanged |
| ArgScans.NameToArgCount | voussoir.net/writing/vmarkdown.py:400-401 | m keyword rewrites of one name turn m of its `n` classes into `narg` |
| ArgScans.ColorAfterMeaning | voussoir.net/writing/vmarkdown.py:412-424 | `do_color` is off exactly when an `=` has been read since the start with no `,` after it |
| ArgScans.FirstDefEnd | voussoir.net/writing/vmarkdown.py:417-418 | the first `)` whose next element sibling reads `:` |
| ArgScans.DefAdvance | voussoir.net/writing/vmarkdown.py:414-418 | the scan steps to the next element and stops exactly at the def end |
| ArgScans.DefHandle | voussoir.net/writing/vmarkdown.py:420-436 | an `=` turns colouring off, a `,` on, any other element read while it is on is rewritten |
| ArgScans.DefScan | voussoir.net/writing/vmarkdown.py:406-436 | the def scan changes class lists only |
| ArgScans.FixArgumentDefClasses | voussoir.net/writing/vmarkdown.py:406-436 | exactly the elements strictly between the `def` and the def end that are read while colouring is on (neither `=` nor `,`) get the argument rewrite; nothing else changes |
| ArgScans.DefRetaggedLocal | voussoir.net/writing/vmarkdown.py:406-436 | nothing outside the scanned range and no string changes |
| ArgScans.LastName | voussoir.net/writing/vmarkdown.py:396-397 | the remembered candidate is the last element with class `n` since the start |
| ArgScans.FirstBalanced | voussoir.net/writing/vmarkdown.py:384-404 | the first element after the start where the paren depth is back to 0 |
| ArgScans.CallStep | voussoir.net/writing/vmarkdown.py:390-397 | each element read updates the depth by its paren and the candidate when it is a name |
| ArgScans.CallRetaggedNext | voussoir.net/writing/vmarkdown.py:399-401 | an `=` operator rewrites the remembered name once (`n` out, `narg` appended) and nothing else |
| ArgScans.CallHandle | voussoir.net/writing/vmarkdown.py:386-404 | one element of the call scan: depth, candidate and the rewrite, and the stop exactly at the balancing element; a keyword `=` rewrites the last name before it at any paren depth |
| ArgScans.CallScan | voussoir.net/writing/vmarkdown.py:377-404 | the call scan changes class lists only |
| ArgScans.FixArgumentCallClasses | voussoir.net/writing/vmarkdown.py:377-404 | each element's `n` becomes `narg` once for each keyword `=` up to the balancing element whose last name it was; nothing else changes |
| ArgScans.HitsOnNames | voussoir.net/writing/vmarkdown.py:396-401 | only an element with class `n` inside the scan is ever rewritten |
| ArgScans.CallRetaggedShape | voussoir.net/writing/vmarkdown.py:396-401 | an element no `=` names keeps its classes |
| FixClasses.DefStarts | voussoir.net/writing/vmarkdown.py:510-511 | the `kd` spans reading `def`, all of them, in document order |
| FixClasses.NameSpans | voussoir.net/writing/vmarkdown.py:514 | the spans with class `n`, all of them, in document order |
| FixClasses.CallPassStep | voussoir.net/writing/vmarkdown.py:514-516 | a name span that is the last child raises; one whose next sibling is not `(` is skipped; otherwise the call scan runs |
| FixClasses.FixedClassesShape | voussoir.net/writing/vmarkdown.py:490-516 | `fix_classes` changes class lists only, besides dropping each block's leading empty children |
| FixClasses.FixReplPass | voussoir.net/writing/vmarkdown.py:506-507 | `fix_repl_classes` on every block, in order; it never fails |
| FixClasses.RunDefScans | voussoir.net/writing/vmarkdown.py:510-512 | the def scans of one block, from the spans collected before the first scan |
| FixClasses.DefScanPass | voussoir.net/writing/vmarkdown.py:510-512 | the def scans of every block |
| FixClasses.RunCallScans | voussoir.net/writing/vmarkdown.py:514-516 | the call scans of one block, from the spans collected before the first scan |
| FixClasses.CallScanPass | voussoir.net/writing/vmarkdown.py:514-516 | the call scans of every block |
| FixClasses.FixClassesPasses | voussoir.net/writing/vmarkdown.py:490-516 | retagging, REPL fix, def scans, call scans in the source's order |
| Replacements.EmptyStyleRemoved | voussoir.net/writing/vmarkdown.py:364 | a `<style>` element holding only whitespace is removed |
| Replacements.RemoveEmptyStylesAbsent | voussoir.net/writing/vmarkdown.py:364 | text without `<style>` is left alone |
| Replacements.PromptFoldInvisible | voussoir.net/writing/vmarkdown.py:365-368 | the folded `>>>` span shows the same text as the two split operator spans |
| Replacements.EllipsisFoldInvisible | voussoir.net/writing/vmarkdown.py:369-372 | the folded `...` span shows the same text as the three split operator spans |
| Replacements.HtmlReplacementsVisible | voussoir.net/writing/vmarkdown.py:363-373 | after the style clean-up, the replacements change markup only: the visible text is the same |
| Replacements.HtmlReplacementsAbsent | voussoir.net/writing/vmarkdown.py:363-373 | a page with none of the three patterns comes out unchanged |
| PyStr.SplitJoinRoundTrip | voussoir.net/writing/vmarkdown.py:117 | joining the pieces of a split with the separator gives the string back |
| PyStr.ParseNatToString | voussoir.net/writing/vmarkdown.py:355 | `int(str(n)) == n` for the counter's decimal text |
| InlineGrammar.InsertFront | voussoir.net/writing/vmarkdown.py:106-109 | `insert(0, rule)` puts the rule first and keeps the rest in order |
| InlineGrammar.VoussoirRulesOrder | voussoir.net/writing/vmarkdown.py:105-109 | the rules are tried in the order `category_tag`, `rarr`, `larr`, `mdash`, then the parser's own |
| InlineGrammar.TagRun | voussoir.net/writing/vmarkdown.py:101 | the longest run of `[\w\.]` characters at the front |
| InlineGrammar.FirstRule | voussoir.net/writing/vmarkdown.py:105-109 | the winning rule is one of the rules and matches at that length |
| InlineGrammar.LastComponentMeaning | voussoir.net/writing/vmarkdown.py:115-118 | the shown tag name is the part after the last dot, or the whole name without one |
| InlineGrammar.RightArrowWins | voussoir.net/writing/vmarkdown.py:99-124 | `-->` gives `&rarr;` and consumes 3 characters, whatever the parser's own rules |
| InlineGrammar.LeftArrowWins | voussoir.net/writing/vmarkdown.py:98-127 | `<--` gives `&larr;` and consumes 3 characters |
| InlineGrammar.DashWins | voussoir.net/writing/vmarkdown.py:100-121 | `--` not followed by `>` gives `&mdash;` and consumes 2 characters |
| InlineGrammar.CategoryTagWins | voussoir.net/writing/vmarkdown.py:101-118 | `[tag:a.b]` gives the tag link for `a.b` showing `[b]`, before any parser rule |
| CodeBlock.Elements | voussoir.net/writing/vmarkdown.py:65-72 | one element per token, in order |
| CodeBlock.JoinTokens | voussoir.net/writing/vmarkdown.py:65-73 | the loop builds the elements (whitespace-only tokens raw, others as classed spans, an empty token wrapped) and joins them |
| CodeBlock.ElementVisible | voussoir.net/writing/vmarkdown.py:67-72 | one token's element shows exactly its text, escaped when wrapped |
| CodeBlock.MarkupVisible | voussoir.net/writing/vmarkdown.py:65-73 | the joined markup shows the tokens' texts in order: only markup is added |
| CodeBlock.DivClassOf | voussoir.net/writing/vmarkdown.py:75-78 | the division's class is `highlight` and the lower-cased language |
| CodeBlock.HighlightedVisible | voussoir.net/writing/vmarkdown.py:52-85 | a highlighted block shows exactly its tokens' texts in order |
| CodeBlock.UnhighlightedVisible | voussoir.net/writing/vmarkdown.py:49-51 | a block naming no language shows its stripped text, escaped |
| CodeBlock.FailureShowsBlock | voussoir.net/writing/vmarkdown.py:86-88 | when highlighting raises, the reader sees the whole block, escaped and not stripped (the fallback, unlike a block naming no language, keeps the surrounding whitespace) |
| CodeBlock.AsWrittenShowsLastToken | voussoir.net/writing/vmarkdown.py:66-88 | as written, a token stream raising after yielding tokens shows only the last token's text |
| CodeBlock.AsWrittenAgrees | voussoir.net/writing/vmarkdown.py:48-88 | wherever the token stream does not raise midway, the code as written and the corrected code agree |
| CodeBlock.AsWrittenLosesText | voussoir.net/writing/vmarkdown.py:66-88 | a block `a b` whose token stream raises after `a`: as written, the fallback differs from the corrected one |

## Left out

- The tokenizer (pygments' `get_lexer_by_name`, `get_tokens`) and its class table `STANDARD_TYPES`: foreign code. The token list, or the failure, is an input (`Lexing`), and the class lookup and both escapes are parameters (`Env`).
- The markdown parser (mistune's `Markdown`, `InlineLexer`, its own rules and `mistune.escape`): foreign code. Only the rule order, the four patterns and their outputs are modelled; the parser's own rules match as a parameter says.
- HTML parsing and serialisation (bs4): the tree is modelled by the heading list and by the child lists of the `<pre>` blocks. A span nested inside a span is flattened to its text. `find_all` over spans outside `<pre>` blocks is not modelled.
- The table's rendering details: the `<ol id="table_of_contents">` wrapper, its caption, and the deletion of the `level` attributes (lines 260-261). The result keeps each list's recorded level, which is what the nesting lemmas talk about.
- Toc.AddToc: requires that no qualifying heading is shallower than the first qualifying one. On other inputs the source never returns (see Findings). It also requires the qualifying headings to carry ids, which the anchor pass always gives them.
- ArgScans.FixArgumentDefClasses, ArgScans.FixArgumentCallClasses: their requires are the conditions under which the source does not raise (a missing terminator, a class-less element, an unbound or already-rewritten candidate). `FixClasses.FixClassesPasses` returns `None` where one would raise.
- InlineGrammar.MatchCategoryTag: `\w` is taken as ASCII letters, digits and `_`. Non-ASCII word characters are not modelled.
- PyStr.Lower: lower-cases ASCII letters plus the two characters whose lower case holds ASCII letters. Other non-ASCII characters are kept, which gives the same slug because `slugify` drops them anyway.
- `embed_images`: network and file I/O, base64 and MIME guessing.
- `cat_file`, `cat_files`, `dump_file`: file I/O.
- `add_head_title` and `get_innertext`: the title copy is plain tree glue. The text of a node is its `text` field here.
- `markdown()`: only the order of the heading passes (lines 549-550) is modelled. The template substitution, the page skeleton and serialisation are glue.
- `markdown_flask`, `markdown_argparse`, `main`: HTTP server and command line.
- `fix_leading_pre_spaces`: dead code, it returns at its first line.
- Logging (`traceback.print_exc`): no effect on the result.

## Findings

| source | as written | input that shows it | evidently intended | confidence | as-written member | corrected member |
|---|---|---|---|---|---|---|
| voussoir.net/writing/vmarkdown.py:241-243 | the snapped level is written on the `toc` document wrapper, while the loop guard at line 222 re-reads `toc.ol['level']`, which never changes | headings h4 X, h1 Title, h1 Y: the climb for Y never ends | record Y's level on the root list and stop climbing, as the comment at lines 232-240 says | high, not executed | Toc.OutOfOrderAsWrittenHangs | Toc.OutOfOrderIntended |
| voussoir.net/writing/vmarkdown.py:66 | the token loop rebinds `text`, so the fallback at line 88 escapes the last token instead of the code block | a block `a b` whose token stream raises after yielding the token `a` | the fallback escapes the whole block | medium, not executed | CodeBlock.AsWrittenLosesText | CodeBlock.FailureShowsBlock |

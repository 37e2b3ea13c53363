/** `add_header_anchors`: a unique id and a trailing self-link for every h1-h6. */
module Anchors {
  import opened PyStr
  import opened Slugs

  /** Heading levels: the tags h1 to h6. */
  type Level = l: int | 1 <= l <= 6 witness 1

  /** An `<a href=... class=...>caption</a>` appended at the end of a heading. */
  datatype AnchorLink = AnchorLink(href: string, cls: string, caption: string)

  /**
   * A heading element: its level, the text nodes of its content in document
   * order, its `id` attribute if any, and the links appended after that content.
   */
  datatype Heading = Heading(level: Level, content: seq<string>, id: Option<string>, links: seq<AnchorLink>)

  const AnchorClass := "header_anchor_link"
  /** `f' ({chr(182)})'`: a space and a pilcrow in parentheses. */
  const AnchorLabel := " (\U{B6})"

  function Captions(links: seq<AnchorLink>): (captions: seq<string>)
    ensures |captions| == |links|
    ensures forall i :: 0 <= i < |links| ==> captions[i] == links[i].caption
  {
    if links == [] then [] else [links[0].caption] + Captions(links[1..])
  }

  /** The text nodes under a heading, in document order. */
  function Strings(h: Heading): seq<string> {
    h.content + Captions(h.links)
  }

  /** `header.get_text()`. */
  function GetText(h: Heading): string {
    Concat(Strings(h))
  }

  function AnchorFor(slug: string): AnchorLink {
    AnchorLink("#" + slug, AnchorClass, AnchorLabel)
  }

  function Elements(s: seq<string>): set<string> {
    set x | x in s
  }

  /**
   * The ids the pass hands out, in document order, for headings whose
   * slugified texts are `slugs`: each one is made unique against the ids
   * handed out before it.
   */
  function AssignIds(slugs: seq<string>): (ids: seq<string>)
    ensures |ids| == |slugs|
  {
    if slugs == [] then []
    else
      var prev := AssignIds(slugs[..|slugs| - 1]);
      prev + [UniqueSlug(slugs[|slugs| - 1], Elements(prev))]
  }

  predicate Distinct(ids: seq<string>) {
    forall i, j :: 0 <= i < j < |ids| ==> ids[i] != ids[j]
  }

  /** No two headings get the same id. */
  lemma {:induction false} AssignIdsDistinct(slugs: seq<string>)
    ensures Distinct(AssignIds(slugs))
  {
    if slugs != [] {
      var prev := AssignIds(slugs[..|slugs| - 1]);
      AssignIdsDistinct(slugs[..|slugs| - 1]);
      var ids := AssignIds(slugs);
      forall i, j | 0 <= i < j < |ids| ensures ids[i] != ids[j] {
        if j == |ids| - 1 {
          assert ids[i] == prev[i] && prev[i] in Elements(prev);
        } else {
          assert ids[i] == prev[i] && ids[j] == prev[j];
        }
      }
    }
  }

  /** The ids handed out to n headings that all slugify to `s`: `s`, `s_2`, ..., `s_n`. */
  function Numbered(s: string, n: nat): (ids: seq<string>)
    ensures |ids| == n
  {
    seq(n, i requires 0 <= i < n => if i == 0 then s else Suffixed(s, i + 1))
  }

  /** After `s`, `s_2`, ..., `s_(n-1)` are taken, the next heading gets `s_n`. */
  lemma NextNumbered(s: string, n: nat)
    requires n >= 2
    ensures UniqueSlug(s, Elements(Numbered(s, n - 1))) == Suffixed(s, n)
  {
    var prev := Numbered(s, n - 1);
    var used := Elements(prev);
    assert prev[0] == s;
    assert s in used;
    forall j: nat | 2 <= j < n ensures Suffixed(s, j) in used {
      assert prev[j - 1] == Suffixed(s, j);
    }
    assert Suffixed(s, n) !in used by {
      if Suffixed(s, n) in used {
        var i :| 0 <= i < n - 1 && prev[i] == Suffixed(s, n);
        if i == 0 {
          SuffixedIsNotBase(s, n);
        } else {
          SuffixedInjective(s, i + 1, n);
        }
      }
    }
    FirstFreeIndexIsLeast(s, used, 2, n);
  }

  lemma {:induction false} IdenticalHeadingsNumbered(s: string, n: nat)
    ensures AssignIds(seq(n, _ => s)) == Numbered(s, n)
  {
    if n > 0 {
      var slugs := seq(n, _ => s);
      assert slugs[..n - 1] == seq(n - 1, _ => s);
      IdenticalHeadingsNumbered(s, n - 1);
      var prev := Numbered(s, n - 1);
      if n == 1 {
        assert Elements(prev) == {};
      } else {
        NextNumbered(s, n);
      }
      assert AssignIds(slugs) == prev + [UniqueSlug(s, Elements(prev))];
    }
  }

  /** The slugified texts of the headings, in document order. */
  function SlugsOf(headings: seq<Heading>): (slugs: seq<string>)
    ensures |slugs| == |headings|
  {
    seq(|headings|, i requires 0 <= i < |headings| => Slugify(GetText(headings[i])))
  }

  /** A heading after the pass: it carries `id` and ends with one extra link to `#id`. */
  function Anchored(h: Heading, id: string): Heading {
    h.(id := Some(id), links := h.links + [AnchorFor(id)])
  }

  lemma AssignIdsSnoc(slugs: seq<string>, i: nat)
    requires i < |slugs|
    ensures AssignIds(slugs[..i + 1]) == AssignIds(slugs[..i]) + [UniqueSlug(slugs[i], Elements(AssignIds(slugs[..i])))]
  {
    assert slugs[..i + 1][..i] == slugs[..i];
  }

  lemma ElementsSnoc(s: seq<string>, x: string)
    ensures Elements(s + [x]) == Elements(s) + {x}
  {
  }

  lemma AnchoredSnoc(headings: seq<Heading>, out: seq<Heading>, ids: seq<string>, slug: string)
    requires |out| == |ids| < |headings|
    requires forall k :: 0 <= k < |out| ==> out[k] == Anchored(headings[k], ids[k])
    ensures var i := |out|;
            forall k :: 0 <= k < i + 1 ==> (out + [Anchored(headings[i], slug)])[k] == Anchored(headings[k], (ids + [slug])[k])
  {
  }

  lemma AnchoredIdsDistinct(headings: seq<Heading>, out: seq<Heading>)
    requires |out| == |headings|
    requires forall i :: 0 <= i < |headings| ==> out[i] == Anchored(headings[i], AssignIds(SlugsOf(headings))[i])
    ensures forall i, j :: 0 <= i < j < |out| ==> out[i].id != out[j].id
    ensures forall i :: 0 <= i < |out| ==> out[i].id.Some? && out[i].links == headings[i].links + [AnchorFor(out[i].id.value)]
  {
    var ids := AssignIds(SlugsOf(headings));
    AssignIdsDistinct(SlugsOf(headings));
    forall i, j | 0 <= i < j < |out| ensures out[i].id != out[j].id {
      assert ids[i] != ids[j];
    }
  }

  /**
   * `add_header_anchors`: for each heading in document order, slugify its
   * text, make the slug unique against a set that grows during the pass, set
   * it as the heading's id and append a link to it.
   */
  method AddHeaderAnchors(headings: seq<Heading>) returns (out: seq<Heading>)
    ensures |out| == |headings|
    ensures forall i :: 0 <= i < |headings| ==> out[i] == Anchored(headings[i], AssignIds(SlugsOf(headings))[i])
    ensures forall i, j :: 0 <= i < j < |out| ==> out[i].id != out[j].id
    ensures forall i :: 0 <= i < |out| ==> out[i].id.Some? && out[i].links == headings[i].links + [AnchorFor(out[i].id.value)]
  {
    var used: set<string> := {};
    ghost var ids: seq<string> := [];
    out := [];
    for i := 0 to |headings|
      invariant |out| == |ids| == i
      invariant ids == AssignIds(SlugsOf(headings)[..i])
      invariant used == Elements(ids)
      invariant forall k :: 0 <= k < i ==> out[k] == Anchored(headings[k], ids[k])
    {
      var slug := Slugify(GetText(headings[i]));
      slug, used := UniqifySlug(slug, used);
      AssignIdsSnoc(SlugsOf(headings), i);
      ElementsSnoc(ids, slug);
      AnchoredSnoc(headings, out, ids, slug);
      ids := ids + [slug];
      out := out + [Anchored(headings[i], slug)];
    }
    assert SlugsOf(headings)[..|headings|] == SlugsOf(headings);
    AnchoredIdsDistinct(headings, out);
  }
}

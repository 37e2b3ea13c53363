/**
 * The heading passes of `markdown()` in the order it runs them: header
 * anchors first, then the table of contents, which reads the ids the first
 * pass assigned.
 */
module Pipeline {
  import opened PyStr
  import opened Anchors
  import opened Toc

  /** The headings once `add_header_anchors` has run. */
  function AnchoredAll(headings: seq<Heading>): (out: seq<Heading>)
    ensures |out| == |headings|
  {
    var ids := AssignIds(SlugsOf(headings));
    seq(|headings|, i requires 0 <= i < |headings| => Anchored(headings[i], ids[i]))
  }

  /** Which heading is the first h1 depends only on the levels. */
  lemma {:induction false} FirstH1ByLevels(a: seq<Heading>, b: seq<Heading>)
    requires |a| == |b| && forall i :: 0 <= i < |a| ==> a[i].level == b[i].level
    ensures FirstH1(a) == FirstH1(b)
    decreases |a|
  {
    if a != [] && a[0].level != 1 {
      FirstH1ByLevels(a[1..], b[1..]);
    }
  }

  /** The anchor pass keeps every heading's level. */
  lemma AnchoredLevels(headings: seq<Heading>)
    ensures forall i :: 0 <= i < |headings| ==> AnchoredAll(headings)[i].level == headings[i].level
  {
  }

  /** After the anchor pass every heading has an id, and no two share one. */
  lemma AnchoredIds(headings: seq<Heading>)
    ensures forall i :: 0 <= i < |headings| ==> AnchoredAll(headings)[i].id.Some?
    ensures forall i, j :: 0 <= i < j < |headings| ==> AnchoredAll(headings)[i].id != AnchoredAll(headings)[j].id
  {
    var ids := AssignIds(SlugsOf(headings));
    var out := AnchoredAll(headings);
    AssignIdsDistinct(SlugsOf(headings));
    assert forall i :: 0 <= i < |out| ==> out[i].id == Some(ids[i]);
  }

  /**
   * After the anchor pass every heading has an id and no two share one, so
   * the table's `header == first_h1` test skips the first h1 and nothing
   * else: a heading gets an entry exactly when it is not the first h1 and
   * its level passes the level pattern.
   */
  lemma AnchoredQualifies(headings: seq<Heading>, first: nat, maxLevel: int)
    requires first < |headings| && maxLevel >= 1
    ensures FirstH1(AnchoredAll(headings)) == FirstH1(headings)
    ensures IdsWhereNeeded(AnchoredAll(headings), first, maxLevel)
    ensures forall i :: 0 <= i < |headings| ==>
      (Qualifies(AnchoredAll(headings), i, first, maxLevel) <==> i != first && MatchesLevelPattern(headings[i].level, maxLevel))
  {
    var out := AnchoredAll(headings);
    AnchoredLevels(headings);
    FirstH1ByLevels(out, headings);
    AnchoredIds(headings);
    forall i | 0 <= i < |headings|
      ensures Qualifies(out, i, first, maxLevel) <==> i != first && MatchesLevelPattern(headings[i].level, maxLevel)
    {
      OnlyFirstH1Skipped(out, i, first);
    }
  }

  /**
   * Lines 549-550 of `markdown()`: anchors, then the table of contents. The
   * table's entries are the anchored headings, and only the first h1 is
   * left out of them.
   */
  method AnchorsThenToc(headings: seq<Heading>, maxLevel: Option<int>) returns (anchored: seq<Heading>, toc: TocResult)
    requires CanBuild(AnchoredAll(headings), maxLevel)
    ensures anchored == AnchoredAll(headings)
    ensures forall i, j :: 0 <= i < j < |anchored| ==> anchored[i].id != anchored[j].id
    ensures toc == AddTocSpec(anchored, maxLevel)
  {
    anchored := AddHeaderAnchors(headings);
    assert anchored == AnchoredAll(headings);
    toc := AddToc(anchored, maxLevel);
  }
}

/**
 * The children of a highlighted `<pre>` block, and the sibling navigation that
 * the span-class fixers use to walk them: `next_element_sibling`,
 * `previous_element_sibling` and `remove_leading_empty_nodes`.
 *
 * A child is either a bare string or an element. An element carries its class
 * list (None when it has no `class` attribute at all, so that reading the
 * attribute fails) and its text; elements nested inside elements are flattened
 * to their text.
 */
module Siblings {
  import opened PyStr

  datatype Node = Text(text: string) | Span(classes: Option<seq<string>>, text: string)

  /** `'c' in element['class']` for an element that has a class attribute. */
  predicate HasClass(n: Node, c: string) {
    n.Span? && n.classes.Some? && c in n.classes.value
  }

  /**
   * Two child lists with the same layout: the same length, the same kind of
   * node at every position and the same text everywhere. The fixers only ever
   * rewrite class lists, so they keep this relation.
   */
  predicate SameShape(a: seq<Node>, b: seq<Node>) {
    |a| == |b| &&
    (forall k :: 0 <= k < |a| ==> a[k].Span? == b[k].Span?) &&
    (forall k :: 0 <= k < |a| ==> a[k].text == b[k].text)
  }

  lemma SameShapeTransitive(a: seq<Node>, b: seq<Node>, c: seq<Node>)
    requires SameShape(a, b) && SameShape(b, c)
    ensures SameShape(a, c)
  {
  }

  // ---------------------------------------------------------------------------
  // next_element_sibling / previous_element_sibling

  /** The position of the first element after position i, skipping strings. */
  function NextElement(nodes: seq<Node>, i: nat): (r: Option<nat>)
    requires i < |nodes|
    ensures r.Some? ==> i < r.value < |nodes| && nodes[r.value].Span?
    ensures forall k :: i < k < |nodes| && (r.None? || k < r.value) ==> nodes[k].Text?
    decreases |nodes| - i
  {
    if i + 1 == |nodes| then None
    else if nodes[i + 1].Span? then Some(i + 1)
    else NextElement(nodes, i + 1)
  }

  /** The position of the last element before position i, skipping strings. */
  function PrevElement(nodes: seq<Node>, i: nat): (r: Option<nat>)
    requires i < |nodes|
    ensures r.Some? ==> r.value < i && nodes[r.value].Span?
    ensures forall k :: 0 <= k < i && (r.None? || r.value < k) ==> nodes[k].Text?
  {
    if i == 0 then None
    else if nodes[i - 1].Span? then Some(i - 1)
    else PrevElement(nodes, i - 1)
  }

  /** Navigation depends only on which positions hold elements. */
  lemma {:induction false} NextElementSameShape(a: seq<Node>, b: seq<Node>, i: nat)
    requires SameShape(a, b) && i < |a|
    ensures NextElement(a, i) == NextElement(b, i)
    decreases |a| - i
  {
    if i + 1 < |a| && a[i + 1].Text? {
      NextElementSameShape(a, b, i + 1);
    }
  }

  /** Any position whose predecessors after i are all strings and which holds an element is the answer. */
  lemma {:induction false} NextElementIsFirst(nodes: seq<Node>, i: nat, j: nat)
    requires i < j < |nodes| && nodes[j].Span?
    requires forall k :: i < k < j ==> nodes[k].Text?
    ensures NextElement(nodes, i) == Some(j)
    decreases j - i
  {
    if j > i + 1 {
      NextElementIsFirst(nodes, i + 1, j);
    }
  }

  lemma {:induction false} NextElementNone(nodes: seq<Node>, i: nat)
    requires i < |nodes|
    requires forall k :: i < k < |nodes| ==> nodes[k].Text?
    ensures NextElement(nodes, i) == None
    decreases |nodes| - i
  {
    if i + 1 < |nodes| {
      NextElementNone(nodes, i + 1);
    }
  }

  lemma {:induction false} PrevElementIsLast(nodes: seq<Node>, i: nat, j: nat)
    requires j < i < |nodes| && nodes[j].Span?
    requires forall k :: j < k < i ==> nodes[k].Text?
    ensures PrevElement(nodes, i) == Some(j)
    decreases i - j
  {
    if j < i - 1 {
      PrevElementIsLast(nodes, i - 1, j);
    }
  }

  lemma {:induction false} PrevElementNone(nodes: seq<Node>, i: nat)
    requires i < |nodes|
    requires forall k :: 0 <= k < i ==> nodes[k].Text?
    ensures PrevElement(nodes, i) == None
  {
    if i > 0 {
      PrevElementNone(nodes, i - 1);
    }
  }

  /** Stepping forward then back from an element returns to it. */
  lemma NextThenPrev(nodes: seq<Node>, i: nat)
    requires i < |nodes| && nodes[i].Span? && NextElement(nodes, i).Some?
    ensures PrevElement(nodes, NextElement(nodes, i).value) == Some(i)
  {
    PrevElementIsLast(nodes, NextElement(nodes, i).value, i);
  }

  /** `next_element_sibling`: walk forward past strings; None after the last child. */
  method NextElementSibling(nodes: seq<Node>, i: nat) returns (r: Option<nat>)
    requires i < |nodes|
    ensures r == NextElement(nodes, i)
  {
    var j := i + 1;
    while j < |nodes| && nodes[j].Text?
      invariant i < j <= |nodes|
      invariant forall k :: i < k < j ==> nodes[k].Text?
    {
      j := j + 1;
    }
    if j == |nodes| {
      NextElementNone(nodes, i);
      r := None;
    } else {
      NextElementIsFirst(nodes, i, j);
      r := Some(j);
    }
  }

  /** `previous_element_sibling`: walk backward past strings; None before the first child. */
  method PreviousElementSibling(nodes: seq<Node>, i: nat) returns (r: Option<nat>)
    requires i < |nodes|
    ensures r == PrevElement(nodes, i)
  {
    var j := i;
    while j > 0 && nodes[j - 1].Text?
      invariant 0 <= j <= i
      invariant forall k :: j <= k < i ==> nodes[k].Text?
    {
      j := j - 1;
    }
    if j == 0 {
      PrevElementNone(nodes, i);
      r := None;
    } else {
      PrevElementIsLast(nodes, i, j - 1);
      r := Some(j - 1);
    }
  }

  // ---------------------------------------------------------------------------
  // remove_leading_empty_nodes

  /** How many children at the front have empty text. */
  function LeadingEmpty(nodes: seq<Node>): (n: nat)
    ensures n <= |nodes|
    ensures forall k :: 0 <= k < n ==> nodes[k].text == ""
    ensures n == |nodes| || nodes[n].text != ""
  {
    if nodes != [] && nodes[0].text == "" then 1 + LeadingEmpty(nodes[1..]) else 0
  }

  /**
   * The children left once the empty ones at the front are dropped: a suffix
   * of the input, everything dropped had empty text, and the first child kept
   * (if any) has text.
   */
  function WithoutLeadingEmpty(nodes: seq<Node>): (r: seq<Node>)
    ensures |r| <= |nodes| && r == nodes[|nodes| - |r|..]
    ensures forall k :: 0 <= k < |nodes| - |r| ==> nodes[k].text == ""
    ensures r != [] ==> r[0].text != ""
  {
    nodes[LeadingEmpty(nodes)..]
  }

  /** Dropping the empty children at the front a second time drops nothing. */
  lemma WithoutLeadingEmptyIdempotent(nodes: seq<Node>)
    ensures WithoutLeadingEmpty(WithoutLeadingEmpty(nodes)) == WithoutLeadingEmpty(nodes)
  {
    var r := WithoutLeadingEmpty(nodes);
    assert LeadingEmpty(r) == 0;
  }

  /** `remove_leading_empty_nodes`: pop children from the front while their text is empty. */
  method RemoveLeadingEmptyNodes(nodes: seq<Node>) returns (r: seq<Node>)
    ensures r == WithoutLeadingEmpty(nodes)
  {
    var popped := 0;
    while popped < |nodes| && nodes[popped].text == ""
      invariant popped <= LeadingEmpty(nodes)
    {
      popped := popped + 1;
    }
    r := nodes[popped..];
  }
}

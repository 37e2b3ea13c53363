/**
 * `fix_classes`: the pass order over the highlighted blocks of a document.
 *
 * The three retagging passes run first over every block, then
 * `fix_repl_classes` over every `<pre>`, then a def scan from every `def`
 * declaration span, then a call scan from every name span whose next sibling
 * reads `(`. Each `find_all` collects its spans before its loop starts, and
 * since no scan adds or removes children, a span is named by its position in
 * its block.
 *
 * A pass that would raise an exception (a scan running off the end of its
 * block, a missing class attribute, an unbound candidate) makes the whole
 * result None.
 */
module FixClasses {
  import opened PyStr
  import opened Siblings
  import opened Retag
  import opened Repl
  import opened ArgScans

  // ---------------------------------------------------------------------------
  // The spans each find_all collects

  /** Positions at or after i of the spans with class `kd` whose text is `def`, in order. */
  function DefStarts(block: Block, i: nat): (r: seq<nat>)
    requires i <= |block|
    ensures forall j :: 0 <= j < |r| ==> i <= r[j] < |block| && HasClass(block[r[j]], "kd") && block[r[j]].text == "def"
    ensures forall k :: i <= k < |block| && HasClass(block[k], "kd") && block[k].text == "def" ==> k in r
    ensures forall j, j' :: 0 <= j < j' < |r| ==> r[j] < r[j']
    decreases |block| - i
  {
    if i == |block| then []
    else if HasClass(block[i], "kd") && block[i].text == "def" then [i] + DefStarts(block, i + 1)
    else DefStarts(block, i + 1)
  }

  /** Positions at or after i of the spans with class `n`, in order. */
  function NameSpans(block: Block, i: nat): (r: seq<nat>)
    requires i <= |block|
    ensures forall j :: 0 <= j < |r| ==> i <= r[j] < |block| && HasClass(block[r[j]], "n")
    ensures forall k :: i <= k < |block| && HasClass(block[k], "n") ==> k in r
    ensures forall j, j' :: 0 <= j < j' < |r| ==> r[j] < r[j']
    decreases |block| - i
  {
    if i == |block| then []
    else if HasClass(block[i], "n") then [i] + NameSpans(block, i + 1)
    else NameSpans(block, i + 1)
  }

  // ---------------------------------------------------------------------------
  // The passes as values

  /** The def scans from the given positions, one after the other on the updated block. */
  function DefPass(block: Block, ds: seq<nat>): Option<Block>
    decreases |ds|
  {
    if ds == [] then Some(block)
    else if !DefScanSafe(block, ds[0]) then None
    else DefPass(DefScan(block, ds[0]), ds[1..])
  }

  /**
   * The call scans from the given name spans: a span whose next sibling (a
   * string or an element) reads `(` starts a scan; the last child has no next
   * sibling, so reading its text fails.
   */
  function CallPass(block: Block, cs: seq<nat>): Option<Block>
    decreases |cs|
  {
    if cs == [] then Some(block)
    else if cs[0] + 1 >= |block| then None
    else if block[cs[0] + 1].text != "(" then CallPass(block, cs[1..])
    else if !CallScanSafe(block, cs[0]) then None
    else CallPass(CallScan(block, cs[0]), cs[1..])
  }

  /** One step of the call pass, from the i-th collected name span. */
  lemma CallPassStep(block: Block, cs: seq<nat>, i: nat)
    requires i < |cs|
    ensures cs[i] + 1 >= |block| ==> CallPass(block, cs[i..]) == None
    ensures cs[i] + 1 < |block| && block[cs[i] + 1].text != "(" ==> CallPass(block, cs[i..]) == CallPass(block, cs[i + 1..])
    ensures cs[i] + 1 < |block| && block[cs[i] + 1].text == "(" && !CallScanSafe(block, cs[i]) ==> CallPass(block, cs[i..]) == None
    ensures cs[i] + 1 < |block| && block[cs[i] + 1].text == "(" && CallScanSafe(block, cs[i]) ==>
      CallPass(block, cs[i..]) == CallPass(CallScan(block, cs[i]), cs[i + 1..])
  {
    var ds := cs[i..];
    assert ds[0] == cs[i] && ds[1..] == cs[i + 1..];
    CallPassUnfold(block, ds);
  }

  lemma CallPassUnfold(block: Block, ds: seq<nat>)
    requires ds != []
    ensures ds[0] + 1 >= |block| ==> CallPass(block, ds) == None
    ensures ds[0] + 1 < |block| && block[ds[0] + 1].text != "(" ==> CallPass(block, ds) == CallPass(block, ds[1..])
    ensures ds[0] + 1 < |block| && block[ds[0] + 1].text == "(" && !CallScanSafe(block, ds[0]) ==> CallPass(block, ds) == None
    ensures ds[0] + 1 < |block| && block[ds[0] + 1].text == "(" && CallScanSafe(block, ds[0]) ==>
      CallPass(block, ds) == CallPass(CallScan(block, ds[0]), ds[1..])
  {
  }

  /** `fix_repl_classes` on every block: it never raises, since deleting an absent attribute is a no-op. */
  function ReplPassed(doc: Doc): (r: Doc)
    ensures |r| == |doc|
  {
    seq(|doc|, b requires 0 <= b < |doc| => ReplFixed(doc[b]))
  }

  function DefBlock(block: Block): Option<Block> {
    DefPass(block, DefStarts(block, 0))
  }

  function CallBlock(block: Block): Option<Block> {
    CallPass(block, NameSpans(block, 0))
  }

  /** A pass over every block succeeds when it succeeds on each block. */
  function EachBlock(f: Block -> Option<Block>, doc: Doc): Option<Doc> {
    if forall b :: 0 <= b < |doc| ==> f(doc[b]).Some?
    then Some(seq(|doc|, b requires 0 <= b < |doc| => f(doc[b]).value))
    else None
  }

  lemma EachBlockFails(f: Block -> Option<Block>, doc: Doc, b: nat)
    requires b < |doc| && f(doc[b]).None?
    ensures EachBlock(f, doc) == None
  {
  }

  lemma EachBlockSucceeds(f: Block -> Option<Block>, doc: Doc, d: Doc)
    requires |d| == |doc| && forall c :: 0 <= c < |doc| ==> f(doc[c]) == Some(d[c])
    ensures EachBlock(f, doc) == Some(d)
  {
    assert forall c :: 0 <= c < |doc| ==> f(doc[c]).Some?;
    assert seq(|doc|, b requires 0 <= b < |doc| => f(doc[b]).value) == d;
  }

  function Retagged(doc: Doc): Doc {
    seq(|doc|, b requires 0 <= b < |doc| => seq(|doc[b]|, k requires 0 <= k < |doc[b]| => RetagAll(doc[b][k])))
  }

  lemma RetaggedByPasses(doc: Doc, d: Doc)
    requires |d| == |doc| && forall b :: 0 <= b < |d| ==> |d[b]| == |doc[b]|
    requires forall b, k :: 0 <= b < |d| && 0 <= k < |d[b]| ==> d[b][k] == RetagAll(doc[b][k])
    ensures d == Retagged(doc)
  {
    forall b | 0 <= b < |doc|
      ensures d[b] == Retagged(doc)[b]
    {
    }
  }

  /** The document after `fix_classes`, or None when one of its passes raises. */
  function FixedClasses(doc: Doc): Option<Doc> {
    match EachBlock(DefBlock, ReplPassed(Retagged(doc)))
    case None => None
    case Some(d3) => EachBlock(CallBlock, d3)
  }

  // ---------------------------------------------------------------------------
  // What the passes preserve

  lemma {:induction false} DefPassShape(block: Block, ds: seq<nat>)
    requires DefPass(block, ds).Some?
    ensures SameShape(DefPass(block, ds).value, block)
    decreases |ds|
  {
    if ds != [] {
      var next := DefScan(block, ds[0]);
      DefPassShape(next, ds[1..]);
      SameShapeTransitive(DefPass(block, ds).value, next, block);
    }
  }

  lemma {:induction false} CallPassShape(block: Block, cs: seq<nat>)
    requires CallPass(block, cs).Some?
    ensures SameShape(CallPass(block, cs).value, block)
    decreases |cs|
  {
    if cs != [] {
      if block[cs[0] + 1].text != "(" {
        CallPassShape(block, cs[1..]);
      } else {
        var next := CallScan(block, cs[0]);
        CallPassShape(next, cs[1..]);
        SameShapeTransitive(CallPass(block, cs).value, next, block);
      }
    }
  }

  /** Dropping the empty children at the front depends only on the texts. */
  lemma WithoutLeadingEmptySameShape(a: seq<Node>, b: seq<Node>)
    requires SameShape(a, b)
    ensures SameShape(WithoutLeadingEmpty(a), WithoutLeadingEmpty(b))
  {
    var n := LeadingEmpty(a);
    assert LeadingEmpty(b) == n;
    var ra, rb := a[n..], b[n..];
    forall k | 0 <= k < |ra|
      ensures ra[k].Span? == rb[k].Span? && ra[k].text == rb[k].text
    {
      var j := n + k;
      assert ra[k] == a[j] && rb[k] == b[j];
    }
  }

  /**
   * `fix_classes` only changes class lists and drops the empty children at
   * the front of each block: every text, every string child and the kind of
   * every child is kept.
   */
  lemma FixedClassesShape(doc: Doc)
    requires FixedClasses(doc).Some?
    ensures |FixedClasses(doc).value| == |doc|
    ensures forall b :: 0 <= b < |doc| ==> SameShape(FixedClasses(doc).value[b], WithoutLeadingEmpty(doc[b]))
  {
    var d1 := Retagged(doc);
    var d2 := ReplPassed(d1);
    var d3 := EachBlock(DefBlock, d2).value;
    var d4 := FixedClasses(doc).value;
    forall b | 0 <= b < |doc|
      ensures SameShape(d4[b], WithoutLeadingEmpty(doc[b]))
    {
      assert SameShape(d1[b], doc[b]);
      WithoutLeadingEmptySameShape(d1[b], doc[b]);
      ReplFixedSameShape(d1[b]);
      DefPassShape(d2[b], DefStarts(d2[b], 0));
      CallPassShape(d3[b], NameSpans(d3[b], 0));
      SameShapeTransitive(d4[b], d3[b], d2[b]);
      SameShapeTransitive(d4[b], d2[b], WithoutLeadingEmpty(d1[b]));
      SameShapeTransitive(d4[b], WithoutLeadingEmpty(d1[b]), WithoutLeadingEmpty(doc[b]));
    }
  }

  // ---------------------------------------------------------------------------
  // The driver

  /** `fix_classes`: the passes in the order the source runs them. */
  method FixClassesPasses(doc: Doc) returns (r: Option<Doc>)
    ensures r == FixedClasses(doc)
  {
    var d1 := RetagDoc(doc);
    RetaggedByPasses(doc, d1);
    var d2 := FixReplPass(d1);
    var d3 := DefScanPass(d2);
    if d3.None? {
      return None;
    }
    r := CallScanPass(d3.value);
  }

  /** `fix_repl_classes` on every block in turn. */
  method FixReplPass(doc: Doc) returns (r: Doc)
    ensures r == ReplPassed(doc)
  {
    r := doc;
    for b := 0 to |doc|
      invariant |r| == |doc|
      invariant forall c :: 0 <= c < b ==> r[c] == ReplFixed(doc[c])
      invariant forall c :: b <= c < |doc| ==> r[c] == doc[c]
    {
      var block := FixReplClasses(r[b]);
      r := r[b := block];
    }
  }

  /** The def scans of every block in turn. */
  method DefScanPass(doc: Doc) returns (r: Option<Doc>)
    ensures r == EachBlock(DefBlock, doc)
  {
    var d := doc;
    for b := 0 to |doc|
      invariant |d| == |doc|
      invariant forall c :: 0 <= c < b ==> DefBlock(doc[c]) == Some(d[c])
      invariant forall c :: b <= c < |doc| ==> d[c] == doc[c]
    {
      var block := RunDefScans(d[b]);
      if block.None? {
        EachBlockFails(DefBlock, doc, b);
        return None;
      }
      d := d[b := block.value];
    }
    EachBlockSucceeds(DefBlock, doc, d);
    r := Some(d);
  }

  /** The call scans of every block in turn. */
  method CallScanPass(doc: Doc) returns (r: Option<Doc>)
    ensures r == EachBlock(CallBlock, doc)
  {
    var d := doc;
    for b := 0 to |doc|
      invariant |d| == |doc|
      invariant forall c :: 0 <= c < b ==> CallBlock(doc[c]) == Some(d[c])
      invariant forall c :: b <= c < |doc| ==> d[c] == doc[c]
    {
      var block := RunCallScans(d[b]);
      if block.None? {
        EachBlockFails(CallBlock, doc, b);
        return None;
      }
      d := d[b := block.value];
    }
    EachBlockSucceeds(CallBlock, doc, d);
    r := Some(d);
  }

  /** The def scans of one block, from the `def` spans collected before the first scan. */
  method RunDefScans(block: Block) returns (r: Option<Block>)
    ensures r == DefBlock(block)
  {
    var ds := DefStarts(block, 0);
    var cur := block;
    for i := 0 to |ds|
      invariant DefPass(cur, ds[i..]) == DefPass(block, ds)
    {
      assert ds[i..][1..] == ds[i + 1..];
      if !DefScanSafe(cur, ds[i]) {
        return None;
      }
      cur := FixArgumentDefClasses(cur, ds[i]);
    }
    r := Some(cur);
  }

  /** The call scans of one block, from the name spans collected before the first scan. */
  method RunCallScans(block: Block) returns (r: Option<Block>)
    ensures r == CallBlock(block)
  {
    var cs := NameSpans(block, 0);
    var cur := block;
    for i := 0 to |cs|
      invariant CallPass(cur, cs[i..]) == CallPass(block, cs)
    {
      var c := cs[i];
      CallPassStep(cur, cs, i);
      if c + 1 >= |cur| {
        return None;
      }
      if cur[c + 1].text == "(" {
        if !CallScanSafe(cur, c) {
          return None;
        }
        cur := FixArgumentCallClasses(cur, c);
      }
    }
    r := Some(cur);
  }
}

/**
 * `fix_repl_classes`: in a `<pre>` whose first non-empty child reads `>>>`,
 * the spans on output lines lose their class attribute, while input lines
 * (those opening with a `>>>` or `...` prompt) keep their highlighting.
 */
module Repl {
  import opened PyStr
  import opened Siblings

  predicate EndsLine(n: Node) {
    EndsWith(n.text, "\n")
  }

  /** `child.string in ('>>>', '...')`. */
  predicate IsPrompt(n: Node) {
    n.text == ">>>" || n.text == "..."
  }

  /** A block is a REPL session when its first child reads `>>>`. */
  predicate IsSession(children: seq<Node>) {
    children != [] && children[0].text == ">>>"
  }

  /**
   * The `del_styles` flag once the loop has visited children[..i+1]: None
   * right after a newline-ending child, otherwise decided by the first child
   * since then (true when that child is not a prompt).
   */
  function DelStyles(children: seq<Node>, i: nat): Option<bool>
    requires i < |children|
  {
    var before := if i == 0 then None else DelStyles(children, i - 1);
    if EndsLine(children[i]) then None
    else if before.None? then Some(!IsPrompt(children[i]))
    else before
  }

  /** The first child of the line holding position i: the one after the last newline-ending child before i. */
  function LineStart(children: seq<Node>, i: nat): (s: nat)
    requires i < |children|
    ensures s <= i
    ensures s == 0 || EndsLine(children[s - 1])
    ensures forall k :: s <= k < i ==> !EndsLine(children[k])
  {
    if i == 0 || EndsLine(children[i - 1]) then i else LineStart(children, i - 1)
  }

  /** The child at position i is an element on an output line, not itself ending the line. */
  predicate OnOutputLine(children: seq<Node>, i: nat)
    requires i < |children|
  {
    children[i].Span? && !EndsLine(children[i]) && !IsPrompt(children[LineStart(children, i)])
  }

  /** The loop's flag agrees with the line-based description. */
  lemma {:induction false} DelStylesByLine(children: seq<Node>, i: nat)
    requires i < |children|
    ensures DelStyles(children, i) ==
      if EndsLine(children[i]) then None else Some(!IsPrompt(children[LineStart(children, i)]))
  {
    if i > 0 && !EndsLine(children[i]) && !EndsLine(children[i - 1]) {
      DelStylesByLine(children, i - 1);
    }
  }

  /** What the block should hold after the fix, given its children once leading empties are gone. */
  function Stripped(children: seq<Node>, i: nat): Node
    requires i < |children|
  {
    if IsSession(children) && OnOutputLine(children, i) then Span(None, children[i].text) else children[i]
  }

  /** What the fix makes of a child list whose empty children at the front are already gone. */
  function Stripping(children: seq<Node>): (r: seq<Node>)
    ensures |r| == |children|
  {
    seq(|children|, i requires 0 <= i < |children| => Stripped(children, i))
  }

  /** The block after `fix_repl_classes`, as one value. */
  function ReplFixed(block: seq<Node>): seq<Node> {
    Stripping(WithoutLeadingEmpty(block))
  }

  /**
   * `fix_repl_classes` on the children of one `<pre>`. The empty children at
   * the front are removed in every case; in a session, exactly the elements on
   * output lines lose their class attribute and nothing else changes.
   */
  method FixReplClasses(block: seq<Node>) returns (r: seq<Node>)
    ensures r == ReplFixed(block)
  {
    var children := RemoveLeadingEmptyNodes(block);
    if children == [] || children[0].text != ">>>" {
      NotSessionUntouched(children);
      r := children;
      return;
    }
    r := StripOutputLines(children);
  }

  /** The loop of `fix_repl_classes` over a session's children. */
  method StripOutputLines(children: seq<Node>) returns (r: seq<Node>)
    requires IsSession(children)
    ensures r == Stripping(children)
  {
    r := children;
    var delStyles: Option<bool> := None;
    for i := 0 to |children|
      invariant i > 0 ==> delStyles == DelStyles(children, i - 1)
      invariant i == 0 ==> delStyles == None
      invariant StrippedUpTo(children, r, i)
    {
      var child := children[i];
      if EndsWith(child.text, "\n") {
        delStyles := None;
      } else if delStyles.None? {
        delStyles := Some(!(child.text == ">>>" || child.text == "..."));
      }
      assert delStyles == DelStyles(children, i);
      StrippedByFlag(children, i);
      if child.Text? {
        StrippedNext(children, r, i);
        continue;
      }
      if delStyles == Some(true) {
        r := r[i := Span(None, child.text)];
      }
      StrippedNext(children, r, i);
    }
    StrippedAll(children, r);
  }

  /** The loop's state after visiting children[..i]: those are stripped, the rest untouched. */
  predicate StrippedUpTo(children: seq<Node>, r: seq<Node>, i: nat) {
    |r| == |children| && i <= |r| &&
    (forall k :: 0 <= k < i ==> r[k] == Stripped(children, k)) &&
    (forall k :: i <= k < |r| ==> r[k] == children[k])
  }

  lemma StrippedNext(children: seq<Node>, r: seq<Node>, i: nat)
    requires i < |children| && |r| == |children|
    requires forall k :: 0 <= k < i ==> r[k] == Stripped(children, k)
    requires forall k :: i < k < |r| ==> r[k] == children[k]
    requires r[i] == Stripped(children, i)
    ensures StrippedUpTo(children, r, i + 1)
  {
  }

  lemma StrippedAll(children: seq<Node>, r: seq<Node>)
    requires StrippedUpTo(children, r, |children|)
    ensures r == Stripping(children)
  {
  }

  /** In a session, a child is stripped exactly when it is an element and the loop's flag says so. */
  lemma StrippedByFlag(children: seq<Node>, i: nat)
    requires IsSession(children) && i < |children|
    ensures Stripped(children, i) ==
      if children[i].Span? && DelStyles(children, i) == Some(true) then Span(None, children[i].text) else children[i]
  {
    DelStylesByLine(children, i);
  }

  /** Outside a session the fix leaves the children as they are. */
  lemma NotSessionUntouched(children: seq<Node>)
    requires !IsSession(children)
    ensures Stripping(children) == children
  {
  }

  /** Strings, newline-ending children and every child of a prompt line are never stripped. */
  lemma NeverStripped(children: seq<Node>, i: nat)
    requires i < |children|
    requires children[i].Text? || EndsLine(children[i]) || IsPrompt(children[LineStart(children, i)])
    ensures Stripped(children, i) == children[i]
  {
  }

  /** The first line of a session opens with its `>>>` prompt, so it always keeps its classes. */
  lemma {:induction false} FirstLineKept(children: seq<Node>, i: nat)
    requires IsSession(children) && i < |children|
    requires forall k :: 0 <= k < i ==> !EndsLine(children[k])
    ensures Stripped(children, i) == children[i]
  {
    if i > 0 {
      FirstLineKept(children, i - 1);
      assert LineStart(children, i) == LineStart(children, i - 1);
    }
  }

  /** The fix changes only class attributes of the children it keeps. */
  lemma ReplFixedSameShape(block: seq<Node>)
    ensures SameShape(ReplFixed(block), WithoutLeadingEmpty(block))
  {
    var children := WithoutLeadingEmpty(block);
    var r := ReplFixed(block);
    assert forall k :: 0 <= k < |r| ==> r[k] == Stripped(children, k);
  }

  /**
   * `del child['class']` on an element with no class attribute is a no-op,
   * so a class-less span on an output line (such as a folded
   * `<span>...</span>`) is kept as it is, and the fix never fails.
   */
  lemma ClasslessKept(children: seq<Node>, i: nat)
    requires i < |children| && children[i].Span? && children[i].classes.None?
    ensures Stripped(children, i) == children[i]
  {
  }
}

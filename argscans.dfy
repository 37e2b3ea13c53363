/**
 * The two argument scans of `fix_classes`.
 *
 * `fix_argument_def_classes` starts at a `def` keyword span and walks the
 * following element siblings up to the `)` that is followed by `:`, turning
 * parameter names into `narg` while no default value is being read.
 *
 * `fix_argument_call_classes` starts at a name span followed by `(` and walks
 * the following element siblings until the parentheses balance, turning the
 * name before each keyword `=` into `narg`.
 *
 * Both read and rewrite the same child list; a scan never reads a class list
 * it has already rewritten except through the name it remembers, so every
 * quantity below is stated over the child list as the scan found it.
 */
module ArgScans {
  import opened PyStr
  import opened Siblings

  // ---------------------------------------------------------------------------
  // Class-list edits

  /** How many times `x` occurs in `cs`. */
  function Count(cs: seq<string>, x: string): nat {
    if cs == [] then 0 else (if cs[0] == x then 1 else 0) + Count(cs[1..], x)
  }

  lemma {:induction false} CountSnoc(cs: seq<string>, y: string, x: string)
    ensures Count(cs + [y], x) == Count(cs, x) + if y == x then 1 else 0
  {
    if cs != [] {
      assert (cs + [y])[1..] == cs[1..] + [y];
      CountSnoc(cs[1..], y, x);
    }
  }

  lemma {:induction false} CountIn(cs: seq<string>, x: string)
    ensures x in cs <==> Count(cs, x) > 0
  {
    if cs != [] {
      CountIn(cs[1..], x);
      assert cs == [cs[0]] + cs[1..];
    }
  }

  /** `list.remove(c)`: drop the first occurrence of `c`. */
  function RemoveFirst(cs: seq<string>, c: string): (r: seq<string>)
    ensures c in cs ==> |r| == |cs| - 1 && forall x :: Count(r, x) == Count(cs, x) - (if x == c then 1 else 0)
    ensures c !in cs ==> r == cs
    ensures c in cs ==> exists i :: 0 <= i < |cs| && cs[i] == c && c !in cs[..i] && r == cs[..i] + cs[i + 1..]
  {
    if cs == [] then []
    else if cs[0] == c then
      assert cs[..0] == [] && cs[0 + 1..] == cs[1..];
      cs[1..]
    else
      var rest := RemoveFirst(cs[1..], c);
      var r := [cs[0]] + rest;
      assert r[1..] == rest;
      assert c in cs ==> exists i :: 0 <= i < |cs| && cs[i] == c && c !in cs[..i] && r == cs[..i] + cs[i + 1..] by {
        if c in cs {
          var j :| 0 <= j < |cs[1..]| && cs[1..][j] == c && c !in cs[1..][..j] && rest == cs[1..][..j] + cs[1..][j + 1..];
          RemovedAt(cs, c, rest, j);
        }
      }
      r
  }

  /** The first occurrence of `c` past a different head sits one place further in. */
  lemma RemovedAt(cs: seq<string>, c: string, rest: seq<string>, j: nat)
    requires cs != [] && cs[0] != c && j < |cs| - 1
    requires cs[1..][j] == c && c !in cs[1..][..j] && rest == cs[1..][..j] + cs[1..][j + 1..]
    ensures cs[j + 1] == c && c !in cs[..j + 1] && [cs[0]] + rest == cs[..j + 1] + cs[j + 2..]
  {
    assert cs[..j + 1] == [cs[0]] + cs[1..][..j];
    assert cs[j + 2..] == cs[1..][j + 1..];
  }

  /** The rewrite the def scan applies to a parameter span. */
  function ArgClasses(cs: seq<string>, text: string): seq<string> {
    if "n" in cs then RemoveFirst(cs, "n") + ["narg"]
    else if "bp" in cs then RemoveFirst(cs, "bp") + ["narg"]
    else if "o" in cs && (text == "*" || text == "**") then RemoveFirst(cs, "o") + ["n"]
    else cs
  }

  /** On the one-class spans the highlighter produces, the def scan's rewrite is a plain swap. */
  lemma ArgClassesSingle(text: string)
    ensures ArgClasses(["n"], text) == ["narg"]
    ensures ArgClasses(["bp"], text) == ["narg"]
    ensures ArgClasses(["o"], "*") == ["n"] && ArgClasses(["o"], "**") == ["n"]
    ensures text != "*" && text != "**" ==> ArgClasses(["o"], text) == ["o"]
    ensures forall c :: c != "n" && c != "bp" && c != "o" ==> ArgClasses([c], text) == [c]
  {
    assert RemoveFirst(["n"], "n") == [];
    assert RemoveFirst(["bp"], "bp") == [];
    assert RemoveFirst(["o"], "o") == [];
  }

  /** The call scan's rewrite of a name span, applied once per keyword `=` that names it. */
  function NameToArg(cs: seq<string>, m: nat): seq<string> {
    if m == 0 then cs else RemoveFirst(NameToArg(cs, m - 1), "n") + ["narg"]
  }

  /** Each rewrite uses up one `n` class, so m rewrites need m of them. */
  lemma {:induction false} NameToArgCount(cs: seq<string>, m: nat)
    requires m <= Count(cs, "n")
    ensures Count(NameToArg(cs, m), "n") == Count(cs, "n") - m
    ensures Count(NameToArg(cs, m), "narg") == Count(cs, "narg") + m
  {
    if m > 0 {
      NameToArgCount(cs, m - 1);
      NameToArgStep(NameToArg(cs, m - 1));
    }
  }

  /** One rewrite of a class list holding an `n`: one `n` fewer, one `narg` more. */
  lemma NameToArgStep(prev: seq<string>)
    requires Count(prev, "n") > 0
    ensures Count(RemoveFirst(prev, "n") + ["narg"], "n") == Count(prev, "n") - 1
    ensures Count(RemoveFirst(prev, "n") + ["narg"], "narg") == Count(prev, "narg") + 1
  {
    CountIn(prev, "n");
    var removed := RemoveFirst(prev, "n");
    assert Count(removed, "n") == Count(prev, "n") - 1;
    assert Count(removed, "narg") == Count(prev, "narg");
    CountSnoc(removed, "narg", "n");
    CountSnoc(removed, "narg", "narg");
  }

  // ---------------------------------------------------------------------------
  // Walking element siblings from a start element

  /** The element visited just before element e, in a walk that started at element s. */
  function Prev(nodes: seq<Node>, s: nat, e: nat): (p: nat)
    requires s < e < |nodes| && nodes[s].Span?
    ensures s <= p < e && nodes[p].Span?
    ensures forall k :: p < k < e ==> nodes[k].Text?
  {
    PrevElement(nodes, e).value
  }

  /** The walk's next element after e is visited right after e. */
  lemma PrevOfNext(nodes: seq<Node>, s: nat, e: nat)
    requires s <= e < |nodes| && nodes[s].Span? && nodes[e].Span? && NextElement(nodes, e).Some?
    ensures Prev(nodes, s, NextElement(nodes, e).value) == e
  {
    NextThenPrev(nodes, e);
  }

  // ---------------------------------------------------------------------------
  // fix_argument_def_classes

  /** `do_color` once the def scan started at d has handled element e. */
  function ColorAfter(nodes: seq<Node>, d: nat, e: nat): bool
    requires d <= e < |nodes| && nodes[d].Span? && nodes[e].Span?
    decreases e
  {
    if e == d then true
    else if nodes[e].text == "=" then false
    else if nodes[e].text == "," then true
    else ColorAfter(nodes, d, Prev(nodes, d, e))
  }

  /** The def scan rewrites element e: it is neither `=` nor `,` and no default value is being read. */
  predicate Colored(nodes: seq<Node>, d: nat, e: nat)
    requires d < e < |nodes| && nodes[d].Span?
  {
    nodes[e].Span? && nodes[e].text != "=" && nodes[e].text != "," && ColorAfter(nodes, d, Prev(nodes, d, e))
  }

  /**
   * `do_color` is off exactly when some `=` element has been handled since
   * the start with no `,` element after it.
   */
  lemma {:induction false} ColorAfterMeaning(nodes: seq<Node>, d: nat, e: nat)
    requires d <= e < |nodes| && nodes[d].Span? && nodes[e].Span?
    ensures !ColorAfter(nodes, d, e) <==>
      exists j :: d < j <= e && nodes[j].Span? && nodes[j].text == "=" &&
        forall m :: j < m <= e && nodes[m].Span? ==> nodes[m].text != ","
    decreases e
  {
    if e > d && nodes[e].text != "=" && nodes[e].text != "," {
      var p := Prev(nodes, d, e);
      ColorAfterMeaning(nodes, d, p);
      if !ColorAfter(nodes, d, p) {
        var j :| d < j <= p && nodes[j].Span? && nodes[j].text == "=" &&
          forall m :: j < m <= p && nodes[m].Span? ==> nodes[m].text != ",";
        assert forall m :: j < m <= e && nodes[m].Span? ==> nodes[m].text != ",";
      } else {
        forall j | d < j <= e && nodes[j].Span? && nodes[j].text == "="
          ensures exists m :: j < m <= e && nodes[m].Span? && nodes[m].text == ","
        {
          assert j <= p;
        }
      }
    }
  }

  /** Element e is the `)` whose next element sibling is `:`. */
  predicate IsDefEnd(nodes: seq<Node>, e: nat)
    requires e < |nodes|
  {
    nodes[e].Span? && nodes[e].text == ")" &&
    NextElement(nodes, e).Some? && nodes[NextElement(nodes, e).value].text == ":"
  }

  /** The first def end at or after position i. */
  function FirstDefEnd(nodes: seq<Node>, i: nat): (r: Option<nat>)
    requires i <= |nodes|
    ensures r.Some? ==> i <= r.value < |nodes| && IsDefEnd(nodes, r.value)
    ensures forall k :: i <= k < |nodes| && (r.None? || k < r.value) ==> !IsDefEnd(nodes, k)
    decreases |nodes| - i
  {
    if i == |nodes| then None
    else if IsDefEnd(nodes, i) then Some(i)
    else FirstDefEnd(nodes, i + 1)
  }

  /**
   * The def scan ends, and does not fail, when it reaches a def end, and
   * every element it rewrites on the way has a class attribute.
   */
  predicate DefScanSafe(nodes: seq<Node>, d: nat) {
    d < |nodes| && nodes[d].Span? && FirstDefEnd(nodes, d + 1).Some? &&
    forall k :: d < k < FirstDefEnd(nodes, d + 1).value && Colored(nodes, d, k) ==> nodes[k].classes.Some?
  }

  /** Element k after the def scan from d, once it has rewritten the elements before position bound. */
  function DefRetagged(nodes: seq<Node>, d: nat, bound: nat, k: nat): Node
    requires d < |nodes| && nodes[d].Span? && k < |nodes|
  {
    if d < k < bound && Colored(nodes, d, k) && nodes[k].classes.Some?
    then Span(Some(ArgClasses(nodes[k].classes.value, nodes[k].text)), nodes[k].text)
    else nodes[k]
  }

  /** The child list after the def scan from d, as one value; it changes class lists only. */
  function DefScan(nodes: seq<Node>, d: nat): (r: seq<Node>)
    requires DefScanSafe(nodes, d)
    ensures SameShape(r, nodes)
  {
    seq(|nodes|, k requires 0 <= k < |nodes| => DefRetagged(nodes, d, FirstDefEnd(nodes, d + 1).value, k))
  }

  /**
   * `fix_argument_def_classes` from the `def` span at d: every element
   * strictly between d and the def end that is read while `do_color` is on
   * and is neither `=` nor `,` gets `ArgClasses`; nothing else changes.
   */
  method FixArgumentDefClasses(nodes: seq<Node>, d: nat) returns (r: seq<Node>)
    requires DefScanSafe(nodes, d)
    ensures |r| == |nodes|
    ensures forall k :: 0 <= k < |r| ==> r[k] == DefRetagged(nodes, d, FirstDefEnd(nodes, d + 1).value, k)
    ensures r == DefScan(nodes, d)
  {
    ghost var end := FirstDefEnd(nodes, d + 1).value;
    r := nodes;
    var doColor := true;
    var e := d;
    while true
      invariant d <= e < end && nodes[e].Span? && |r| == |nodes|
      invariant doColor == ColorAfter(nodes, d, e)
      invariant forall k :: 0 <= k < |r| ==> r[k] == DefRetagged(nodes, d, e + 1, k)
      decreases end - e
    {
      var next, stop := DefAdvance(nodes, d, r, e);
      DefBoundGap(nodes, d, e + 1, next);
      if stop {
        break;
      }
      r, doColor := DefHandle(nodes, d, r, next, doColor);
      e := next;
    }
  }

  /**
   * The def scan moves from element e to the next element sibling and checks
   * for the def end there: a `)` whose own next element sibling is `:`.
   */
  method DefAdvance(nodes: seq<Node>, d: nat, r: seq<Node>, e: nat) returns (next: nat, stop: bool)
    requires d < |nodes| && nodes[d].Span? && FirstDefEnd(nodes, d + 1).Some?
    requires d <= e < FirstDefEnd(nodes, d + 1).value && nodes[e].Span?
    requires SameShape(r, nodes)
    ensures e < next <= FirstDefEnd(nodes, d + 1).value && nodes[next].Span? && Prev(nodes, d, next) == e
    ensures forall k :: e < k < next ==> nodes[k].Text?
    ensures stop <==> next == FirstDefEnd(nodes, d + 1).value
  {
    NextElementSameShape(r, nodes, e);
    var n := NextElementSibling(r, e);
    next := n.value;
    PrevOfNext(nodes, d, e);
    stop := false;
    if r[next].text == ")" {
      NextElementSameShape(r, nodes, next);
      var after := NextElementSibling(r, next);
      stop := r[after.value].text == ":";
    }
    assert stop <==> IsDefEnd(nodes, next);
  }

  /** The def scan handles element e, which is not the def end: a separator sets `do_color`, anything else may be rewritten. */
  method DefHandle(nodes: seq<Node>, d: nat, r: seq<Node>, e: nat, doColor: bool)
    returns (r': seq<Node>, doColor': bool)
    requires DefScanSafe(nodes, d)
    requires d < e < FirstDefEnd(nodes, d + 1).value && nodes[e].Span? && |r| == |nodes|
    requires doColor == ColorAfter(nodes, d, Prev(nodes, d, e))
    requires forall k :: 0 <= k < |r| ==> r[k] == DefRetagged(nodes, d, e, k)
    ensures |r'| == |nodes| && doColor' == ColorAfter(nodes, d, e)
    ensures forall k :: 0 <= k < |r'| ==> r'[k] == DefRetagged(nodes, d, e + 1, k)
  {
    DefBoundNext(nodes, d, e);
    r' := r;
    doColor' := doColor;
    var text := r[e].text;
    if text == "=" {
      doColor' := false;
    } else if text == "," {
      doColor' := true;
    } else if doColor {
      assert Colored(nodes, d, e);
      var cs := r[e].classes.value;
      r' := r[e := Span(Some(ArgClasses(cs, text)), text)];
    }
  }

  lemma DefBoundGap(nodes: seq<Node>, d: nat, b1: nat, b2: nat)
    requires d < |nodes| && nodes[d].Span? && b1 <= b2 <= |nodes|
    requires forall j :: b1 <= j < b2 ==> nodes[j].Text?
    ensures forall k :: 0 <= k < |nodes| ==> DefRetagged(nodes, d, b1, k) == DefRetagged(nodes, d, b2, k)
  {
  }

  lemma DefBoundNext(nodes: seq<Node>, d: nat, e: nat)
    requires d < e < |nodes| && nodes[d].Span?
    ensures forall k :: 0 <= k < |nodes| && k != e ==> DefRetagged(nodes, d, e + 1, k) == DefRetagged(nodes, d, e, k)
    ensures DefRetagged(nodes, d, e, e) == nodes[e]
  {
  }

  /** The def scan changes class lists only, and only of elements strictly inside its range. */
  lemma DefRetaggedLocal(nodes: seq<Node>, d: nat, bound: nat, k: nat)
    requires d < |nodes| && nodes[d].Span? && k < |nodes|
    ensures DefRetagged(nodes, d, bound, k).Span? == nodes[k].Span?
    ensures DefRetagged(nodes, d, bound, k).text == nodes[k].text
    ensures k <= d || bound <= k || nodes[k].Text? ==> DefRetagged(nodes, d, bound, k) == nodes[k]
  {
  }

  // ---------------------------------------------------------------------------
  // fix_argument_call_classes

  function Delta(n: Node): int {
    if n.text == "(" then 1 else if n.text == ")" then -1 else 0
  }

  /** `paren_depth` once the call scan started at c has handled element e. */
  function Depth(nodes: seq<Node>, c: nat, e: nat): int
    requires c <= e < |nodes| && nodes[c].Span? && nodes[e].Span?
    decreases e
  {
    if e == c then 0 else Depth(nodes, c, Prev(nodes, c, e)) + Delta(nodes[e])
  }

  /** `last_known_candidate` once element e is handled: the last element with class `n` since the start. */
  function LastName(nodes: seq<Node>, c: nat, e: nat): (r: Option<nat>)
    requires c <= e < |nodes| && nodes[c].Span? && nodes[e].Span?
    ensures r.Some? ==> c < r.value <= e && HasClass(nodes[r.value], "n")
    decreases e
  {
    if e == c then None
    else if HasClass(nodes[e], "n") then Some(e)
    else LastName(nodes, c, Prev(nodes, c, e))
  }

  predicate IsAssign(n: Node) {
    HasClass(n, "o") && n.text == "="
  }

  /** How many keyword `=` elements up to e had element k as their last name. */
  function Hits(nodes: seq<Node>, c: nat, e: nat, k: nat): nat
    requires c <= e < |nodes| && nodes[c].Span? && nodes[e].Span?
    decreases e
  {
    if e == c then 0
    else Hits(nodes, c, Prev(nodes, c, e), k) + (if IsAssign(nodes[e]) && LastName(nodes, c, e) == Some(k) then 1 else 0)
  }

  lemma {:induction false} HitsAhead(nodes: seq<Node>, c: nat, e: nat, k: nat)
    requires c <= e < k && e < |nodes| && nodes[c].Span? && nodes[e].Span?
    ensures Hits(nodes, c, e, k) == 0
    decreases e
  {
    if e > c {
      HitsAhead(nodes, c, Prev(nodes, c, e), k);
    }
  }

  /** The first element at or after position i where the parentheses balance. */
  function FirstBalanced(nodes: seq<Node>, c: nat, i: nat): (r: Option<nat>)
    requires c < i <= |nodes| && nodes[c].Span?
    ensures r.Some? ==> i <= r.value < |nodes| && nodes[r.value].Span? && Depth(nodes, c, r.value) == 0
    ensures forall k :: i <= k < |nodes| && (r.None? || k < r.value) && nodes[k].Span? ==> Depth(nodes, c, k) != 0
    decreases |nodes| - i
  {
    if i == |nodes| then None
    else if nodes[i].Span? && Depth(nodes, c, i) == 0 then Some(i)
    else FirstBalanced(nodes, c, i + 1)
  }

  /**
   * The call scan ends, and does not fail, when the parentheses balance
   * again; every element it reads has a class attribute; and every keyword
   * `=` finds a remembered name that still carries the class `n`.
   */
  predicate CallScanSafe(nodes: seq<Node>, c: nat) {
    c < |nodes| && nodes[c].Span? && FirstBalanced(nodes, c, c + 1).Some? &&
    forall e :: c < e <= FirstBalanced(nodes, c, c + 1).value && nodes[e].Span? ==> CallVisitSafe(nodes, c, e)
  }

  /** Handling element e neither reads a missing class attribute nor rewrites a name that lost its `n`. */
  predicate CallVisitSafe(nodes: seq<Node>, c: nat, e: nat)
    requires c < e < |nodes| && nodes[c].Span? && nodes[e].Span?
  {
    nodes[e].classes.Some? &&
    (IsAssign(nodes[e]) ==>
      LastName(nodes, c, e).Some? &&
      Hits(nodes, c, e, LastName(nodes, c, e).value) <= Count(nodes[LastName(nodes, c, e).value].classes.value, "n"))
  }

  /** Element k after the call scan from c has handled element e. */
  function CallRetagged(nodes: seq<Node>, c: nat, e: nat, k: nat): Node
    requires c <= e < |nodes| && nodes[c].Span? && nodes[e].Span? && k < |nodes|
  {
    if nodes[k].Span? && nodes[k].classes.Some?
    then Span(Some(NameToArg(nodes[k].classes.value, Hits(nodes, c, e, k))), nodes[k].text)
    else nodes[k]
  }

  /** Handling the next element e' updates the depth and the remembered name. */
  lemma CallStep(nodes: seq<Node>, c: nat, e: nat, e': nat)
    requires c <= e < e' < |nodes| && nodes[c].Span? && nodes[e].Span? && nodes[e'].Span?
    requires Prev(nodes, c, e') == e
    ensures Depth(nodes, c, e') == Depth(nodes, c, e) + Delta(nodes[e'])
    ensures LastName(nodes, c, e') == if HasClass(nodes[e'], "n") then Some(e') else LastName(nodes, c, e)
  {
  }

  /** Handling the next element e' rewrites the remembered name once when e' is a keyword `=`, and nothing else. */
  lemma CallRetaggedNext(nodes: seq<Node>, c: nat, e: nat, e': nat, k: nat)
    requires c <= e < e' < |nodes| && nodes[c].Span? && nodes[e].Span? && nodes[e'].Span? && k < |nodes|
    requires Prev(nodes, c, e') == e
    ensures IsAssign(nodes[e']) && LastName(nodes, c, e') == Some(k) ==>
      CallRetagged(nodes, c, e, k).Span? && CallRetagged(nodes, c, e, k).classes.Some? &&
      CallRetagged(nodes, c, e', k) ==
        Span(Some(RemoveFirst(CallRetagged(nodes, c, e, k).classes.value, "n") + ["narg"]), nodes[k].text)
    ensures !(IsAssign(nodes[e']) && LastName(nodes, c, e') == Some(k)) ==>
      CallRetagged(nodes, c, e', k) == CallRetagged(nodes, c, e, k)
  {
    assert Hits(nodes, c, e', k) ==
      Hits(nodes, c, e, k) + (if IsAssign(nodes[e']) && LastName(nodes, c, e') == Some(k) then 1 else 0);
  }

  /** The child list after the call scan from c, as one value; it changes class lists only. */
  function CallScan(nodes: seq<Node>, c: nat): (r: seq<Node>)
    requires CallScanSafe(nodes, c)
    ensures SameShape(r, nodes)
  {
    seq(|nodes|, k requires 0 <= k < |nodes| => CallRetagged(nodes, c, FirstBalanced(nodes, c, c + 1).value, k))
  }

  /**
   * `fix_argument_call_classes` from the name span at c: every element with
   * a class list ends with its `n` class turned into `narg` once for each
   * keyword `=` up to the balancing element whose last name it was; nothing
   * else changes.
   */
  method FixArgumentCallClasses(nodes: seq<Node>, c: nat) returns (r: seq<Node>)
    requires CallScanSafe(nodes, c)
    ensures |r| == |nodes|
    ensures forall k :: 0 <= k < |r| ==> r[k] == CallRetagged(nodes, c, FirstBalanced(nodes, c, c + 1).value, k)
    ensures r == CallScan(nodes, c)
  {
    ghost var end := FirstBalanced(nodes, c, c + 1).value;
    r := nodes;
    var depth := 0;
    var candidate: Option<nat> := None;
    var e := c;
    while true
      invariant c <= e < end && nodes[e].Span? && |r| == |nodes|
      invariant depth == Depth(nodes, c, e) && candidate == LastName(nodes, c, e)
      invariant forall k :: 0 <= k < |r| ==> r[k] == CallRetagged(nodes, c, e, k)
      decreases end - e
    {
      assert SameShape(r, nodes);
      NextElementSameShape(r, nodes, e);
      var next := NextElementSibling(r, e);
      PrevOfNext(nodes, c, e);
      r, depth, candidate := CallHandle(nodes, c, r, e, next.value, depth, candidate);
      e := next.value;
      if depth == 0 {
        break;
      }
    }
  }

  /**
   * The call scan handles element e', the next element sibling after e:
   * it updates the paren depth, remembers e' when it is a name, and on a
   * keyword `=` rewrites the remembered name.
   */
  method CallHandle(nodes: seq<Node>, c: nat, r: seq<Node>, e: nat, e': nat, depth: int, candidate: Option<nat>)
    returns (r': seq<Node>, depth': int, candidate': Option<nat>)
    requires CallScanSafe(nodes, c)
    requires c <= e < FirstBalanced(nodes, c, c + 1).value && nodes[e].Span? && |r| == |nodes|
    requires e < e' < |nodes| && nodes[e'].Span? && Prev(nodes, c, e') == e
    requires depth == Depth(nodes, c, e) && candidate == LastName(nodes, c, e)
    requires forall k :: 0 <= k < |r| ==> r[k] == CallRetagged(nodes, c, e, k)
    ensures depth' == 0 ==> e' == FirstBalanced(nodes, c, c + 1).value
    ensures depth' != 0 ==> e' < FirstBalanced(nodes, c, c + 1).value
    ensures |r'| == |nodes| && depth' == Depth(nodes, c, e') && candidate' == LastName(nodes, c, e')
    ensures forall k :: 0 <= k < |r'| ==> r'[k] == CallRetagged(nodes, c, e', k)
  {
    CallHandleReady(nodes, c, r, e, e');
    r' := r;
    depth' := depth;
    candidate' := candidate;
    var text := r[e'].text;
    if text == "(" {
      depth' := depth' + 1;
    }
    if text == ")" {
      depth' := depth' - 1;
    }
    assert depth' == Depth(nodes, c, e');
    var cs := r[e'].classes.value;
    if "n" in cs {
      candidate' := Some(e');
    }
    assert candidate' == LastName(nodes, c, e');
    if "o" in cs && text == "=" {
      var k := candidate'.value;
      var ks := r[k].classes.value;
      r' := r[k := Span(Some(RemoveFirst(ks, "n") + ["narg"]), r[k].text)];
      CallRewriteName(nodes, c, e, e', r, r', k);
    } else {
      CallKeepNames(nodes, c, e, e', r);
    }
  }

  /**
   * What handling e' relies on: e' is still inside the scan, it reads the
   * unchanged element, and on a keyword `=` the remembered name still has an
   * `n` class to rewrite.
   */
  lemma CallHandleReady(nodes: seq<Node>, c: nat, r: seq<Node>, e: nat, e': nat)
    requires CallScanSafe(nodes, c)
    requires c <= e < FirstBalanced(nodes, c, c + 1).value && nodes[e].Span? && |r| == |nodes|
    requires e < e' < |nodes| && nodes[e'].Span? && Prev(nodes, c, e') == e
    requires forall k :: 0 <= k < |r| ==> r[k] == CallRetagged(nodes, c, e, k)
    ensures e' <= FirstBalanced(nodes, c, c + 1).value
    ensures Depth(nodes, c, e') == 0 <==> e' == FirstBalanced(nodes, c, c + 1).value
    ensures r[e'] == nodes[e'] && nodes[e'].classes.Some?
    ensures Depth(nodes, c, e') == Depth(nodes, c, e) + Delta(nodes[e'])
    ensures LastName(nodes, c, e') == if HasClass(nodes[e'], "n") then Some(e') else LastName(nodes, c, e)
    ensures IsAssign(nodes[e']) ==> LastName(nodes, c, e').Some?
    ensures IsAssign(nodes[e']) ==>
      var k := LastName(nodes, c, e').value;
      r[k].Span? && r[k].classes.Some? && "n" in r[k].classes.value
  {
    var end := FirstBalanced(nodes, c, c + 1).value;
    assert e' <= end;
    assert CallVisitSafe(nodes, c, e');
    HitsAhead(nodes, c, e, e');
    CallStep(nodes, c, e, e');
    if IsAssign(nodes[e']) {
      var k := LastName(nodes, c, e').value;
      assert Hits(nodes, c, e', k) == Hits(nodes, c, e, k) + 1;
      NameToArgCount(nodes[k].classes.value, Hits(nodes, c, e, k));
      CountIn(r[k].classes.value, "n");
    }
  }

  lemma CallRewriteName(nodes: seq<Node>, c: nat, e: nat, e': nat, r: seq<Node>, r': seq<Node>, k: nat)
    requires c <= e < e' < |nodes| && nodes[c].Span? && nodes[e].Span? && nodes[e'].Span?
    requires Prev(nodes, c, e') == e && |r| == |nodes| && k < |r|
    requires forall j :: 0 <= j < |r| ==> r[j] == CallRetagged(nodes, c, e, j)
    requires IsAssign(nodes[e']) && LastName(nodes, c, e') == Some(k)
    requires r[k].Span? && r[k].classes.Some?
    requires r' == r[k := Span(Some(RemoveFirst(r[k].classes.value, "n") + ["narg"]), r[k].text)]
    ensures forall j :: 0 <= j < |r'| ==> r'[j] == CallRetagged(nodes, c, e', j)
  {
    forall j | 0 <= j < |r'|
      ensures r'[j] == CallRetagged(nodes, c, e', j)
    {
      CallRetaggedNext(nodes, c, e, e', j);
    }
  }

  lemma CallKeepNames(nodes: seq<Node>, c: nat, e: nat, e': nat, r: seq<Node>)
    requires c <= e < e' < |nodes| && nodes[c].Span? && nodes[e].Span? && nodes[e'].Span?
    requires Prev(nodes, c, e') == e && |r| == |nodes|
    requires forall j :: 0 <= j < |r| ==> r[j] == CallRetagged(nodes, c, e, j)
    requires !IsAssign(nodes[e'])
    ensures forall j :: 0 <= j < |r| ==> r[j] == CallRetagged(nodes, c, e', j)
  {
    forall j | 0 <= j < |r|
      ensures r[j] == CallRetagged(nodes, c, e', j)
    {
      CallRetaggedNext(nodes, c, e, e', j);
    }
  }

  /** The call scan changes class lists only. */
  lemma CallRetaggedShape(nodes: seq<Node>, c: nat, e: nat, k: nat)
    requires c <= e < |nodes| && nodes[c].Span? && nodes[e].Span? && k < |nodes|
    ensures CallRetagged(nodes, c, e, k).Span? == nodes[k].Span?
    ensures CallRetagged(nodes, c, e, k).text == nodes[k].text
    ensures Hits(nodes, c, e, k) == 0 ==> CallRetagged(nodes, c, e, k) == nodes[k]
  {
  }

  /** Only a name span is ever rewritten: every hit lands on an element with class `n` inside the scan. */
  lemma {:induction false} HitsOnNames(nodes: seq<Node>, c: nat, e: nat, k: nat)
    requires c <= e < |nodes| && nodes[c].Span? && nodes[e].Span? && Hits(nodes, c, e, k) > 0
    ensures c < k <= e && HasClass(nodes[k], "n")
    decreases e
  {
    if e > c {
      var p := Prev(nodes, c, e);
      if Hits(nodes, c, p, k) > 0 {
        HitsOnNames(nodes, c, p, k);
      }
    }
  }
}

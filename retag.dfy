/**
 * The three retagging passes at the head of `fix_classes`: keyword spans for
 * `def`/`class` become declarations, builtin spans for the three constants
 * become literals, and operator spans for punctuation become plain names.
 *
 * A document is modelled by the child lists of its `<pre>` blocks, in
 * document order; `soup.find_all('span', {'class': c})` visits every element
 * whose class list holds `c`.
 */
module Retag {
  import opened PyStr
  import opened Siblings

  type Block = seq<Node>
  type Doc = seq<Block>

  /** Spans that carry class `from` and whose text is one of `words` get the class list `[to]`. */
  datatype Rule = Rule(from: string, words: set<string>, to: string)

  const KeywordRule := Rule("k", {"def", "class"}, "kd")
  const ConstantRule := Rule("bp", {"None", "True", "False"}, "m")
  const PunctuationRule := Rule("o", {".", "(", ")", "[", "]", "{", "}", ";", ","}, "n")

  predicate Fires(rule: Rule, n: Node) {
    HasClass(n, rule.from) && n.text in rule.words
  }

  function RetagNode(rule: Rule, n: Node): (r: Node)
    ensures r.Span? == n.Span? && r.text == n.text
    ensures Fires(rule, n) ==> r.classes == Some([rule.to])
    ensures !Fires(rule, n) ==> r == n
  {
    if Fires(rule, n) then Span(Some([rule.to]), n.text) else n
  }

  /** One pass over one block: every element the rule fires on is retagged in place. */
  method RetagBlock(rule: Rule, block: Block) returns (r: Block)
    ensures |r| == |block|
    ensures forall k :: 0 <= k < |r| ==> r[k] == RetagNode(rule, block[k])
  {
    r := block;
    for k := 0 to |r|
      invariant |r| == |block|
      invariant forall j :: 0 <= j < k ==> r[j] == RetagNode(rule, block[j])
      invariant forall j :: k <= j < |r| ==> r[j] == block[j]
    {
      if Fires(rule, r[k]) {
        r := r[k := Span(Some([rule.to]), r[k].text)];
      }
    }
  }

  /** One pass over the whole document. */
  method RetagPass(rule: Rule, doc: Doc) returns (r: Doc)
    ensures |r| == |doc|
    ensures forall b :: 0 <= b < |r| ==> |r[b]| == |doc[b]|
    ensures forall b, k :: 0 <= b < |r| && 0 <= k < |r[b]| ==> r[b][k] == RetagNode(rule, doc[b][k])
  {
    r := doc;
    for b := 0 to |r|
      invariant |r| == |doc|
      invariant forall c :: 0 <= c < |r| ==> |r[c]| == |doc[c]|
      invariant forall c, k :: 0 <= c < b && 0 <= k < |r[c]| ==> r[c][k] == RetagNode(rule, doc[c][k])
      invariant forall c :: b <= c < |r| ==> r[c] == doc[c]
    {
      var block := RetagBlock(rule, r[b]);
      r := r[b := block];
    }
  }

  /** The effect of running the keyword, constant and punctuation passes in that order on one node. */
  function RetagAll(n: Node): Node {
    RetagNode(PunctuationRule, RetagNode(ConstantRule, RetagNode(KeywordRule, n)))
  }

  /**
   * At most one of the three passes touches a node, because their word lists
   * are disjoint: the node ends with exactly the class list of the rule whose
   * class and word it matched, and every other node keeps its class list.
   */
  lemma RetagAllEffect(n: Node)
    ensures RetagAll(n).Span? == n.Span? && RetagAll(n).text == n.text
    ensures Fires(KeywordRule, n) ==> RetagAll(n).classes == Some(["kd"])
    ensures Fires(ConstantRule, n) ==> RetagAll(n).classes == Some(["m"])
    ensures Fires(PunctuationRule, n) ==> RetagAll(n).classes == Some(["n"])
    ensures !Fires(KeywordRule, n) && !Fires(ConstantRule, n) && !Fires(PunctuationRule, n) ==> RetagAll(n) == n
  {
    if Fires(KeywordRule, n) {
      assert !Fires(ConstantRule, RetagNode(KeywordRule, n));
      assert !Fires(PunctuationRule, RetagNode(KeywordRule, n));
    } else if Fires(ConstantRule, n) {
      assert !Fires(PunctuationRule, RetagNode(ConstantRule, n));
    }
  }

  /** Running the three passes a second time changes nothing. */
  lemma RetagAllIdempotent(n: Node)
    ensures RetagAll(RetagAll(n)) == RetagAll(n)
  {
    RetagAllEffect(n);
    RetagAllEffect(RetagAll(n));
  }

  /** The three passes over a document, as the head of `fix_classes` runs them. */
  method RetagDoc(doc: Doc) returns (r: Doc)
    ensures |r| == |doc|
    ensures forall b :: 0 <= b < |r| ==> |r[b]| == |doc[b]|
    ensures forall b, k :: 0 <= b < |r| && 0 <= k < |r[b]| ==> r[b][k] == RetagAll(doc[b][k])
  {
    var d1 := RetagPass(KeywordRule, doc);
    var d2 := RetagPass(ConstantRule, d1);
    r := RetagPass(PunctuationRule, d2);
  }
}

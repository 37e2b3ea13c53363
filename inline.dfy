/**
 * `VoussoirGrammar` and `VoussoirLexer`: four inline rules put in front of
 * the Markdown parser's own ones. At each position the lexer tries its
 * rules in order and takes the first that matches; the parser's own rules
 * and their matching are parameters here.
 */
module InlineGrammar {
  import opened PyStr

  // ---------------------------------------------------------------------------
  // The rule order

  /** `default_rules.insert(0, rule)`. */
  function InsertFront(rules: seq<string>, rule: string): (r: seq<string>)
    ensures |r| == |rules| + 1 && r[0] == rule && r[1..] == rules
  {
    [rule] + rules
  }

  /** The copied default rules after the four `insert(0, …)` calls, in the order the class body makes them. */
  function VoussoirRules(defaults: seq<string>): seq<string> {
    var rules := InsertFront(defaults, "mdash");
    var rules := InsertFront(rules, "larr");
    var rules := InsertFront(rules, "rarr");
    InsertFront(rules, "category_tag")
  }

  /** Each insertion goes to the front, so the last one inserted is tried first. */
  lemma VoussoirRulesOrder(defaults: seq<string>)
    ensures VoussoirRules(defaults) == ["category_tag", "rarr", "larr", "mdash"] + defaults
  {
  }

  // ---------------------------------------------------------------------------
  // The four patterns

  /** A character of `[\w\.]`, for ASCII text. */
  predicate IsTagChar(c: char) {
    ('a' <= c <= 'z') || ('A' <= c <= 'Z') || ('0' <= c <= '9') || c == '_' || c == '.'
  }

  /** The length of the longest run of tag characters at the front of s. */
  function TagRun(s: string): (n: nat)
    ensures n <= |s|
    ensures forall i :: 0 <= i < n ==> IsTagChar(s[i])
    ensures n == |s| || !IsTagChar(s[n])
  {
    if s != [] && IsTagChar(s[0]) then 1 + TagRun(s[1..]) else 0
  }

  /**
   * `\[tag:([\w\.]+)\]` at the front of s: the greedy run must end at the
   * closing bracket, since `]` is not a tag character. The qualified name is
   * the run.
   */
  function MatchCategoryTag(s: string): Option<string> {
    if StartsWith(s, "[tag:") && 0 < TagRun(s[5..]) && 5 + TagRun(s[5..]) < |s| && s[5 + TagRun(s[5..])] == ']'
    then Some(s[5..5 + TagRun(s[5..])])
    else None
  }

  /** The length matched by a rule at the front of s; the parser's own rules match as `other` says. */
  function MatchLength(rule: string, s: string, other: (string, string) -> Option<nat>): Option<nat> {
    if rule == "category_tag" then (if MatchCategoryTag(s).Some? then Some(|MatchCategoryTag(s).value| + 6) else None)
    else if rule == "rarr" then (if StartsWith(s, "-->") then Some(3) else None)
    else if rule == "larr" then (if StartsWith(s, "<--") then Some(3) else None)
    else if rule == "mdash" then (if StartsWith(s, "--") then Some(2) else None)
    else other(rule, s)
  }

  /** The first rule, in order, that matches at the front of s, and how much it matches. */
  function FirstRule(rules: seq<string>, s: string, other: (string, string) -> Option<nat>): (r: Option<(string, nat)>)
    ensures r.Some? ==> r.value.0 in rules && MatchLength(r.value.0, s, other) == Some(r.value.1)
  {
    if rules == [] then None
    else if MatchLength(rules[0], s, other).Some? then Some((rules[0], MatchLength(rules[0], s, other).value))
    else FirstRule(rules[1..], s, other)
  }

  // ---------------------------------------------------------------------------
  // The outputs

  /** `qualname.split('.')[-1]`. */
  function LastComponent(qualname: string): string {
    var pieces := Split(qualname, ".");
    pieces[|pieces| - 1]
  }

  /** `output_category_tag`: a tag link showing the last component of the qualified name. */
  function OutputCategoryTag(qualname: string): string {
    "<a class=\"tag_link\" data-qualname=\"" + qualname + "\">[" + LastComponent(qualname) + "]</a>"
  }

  /**
   * One lexer step at the front of s: what the winning rule emits and the
   * length it consumes, when one of the four rules wins; None when a parser
   * rule does (its output is not part of this model).
   */
  function Step(defaults: seq<string>, s: string, other: (string, string) -> Option<nat>): Option<(string, nat)> {
    var r := FirstRule(VoussoirRules(defaults), s, other);
    if r.None? then None
    else if r.value.0 == "category_tag" then Some((OutputCategoryTag(MatchCategoryTag(s).value), r.value.1))
    else if r.value.0 == "rarr" then Some(("&rarr;", r.value.1))
    else if r.value.0 == "larr" then Some(("&larr;", r.value.1))
    else if r.value.0 == "mdash" then Some(("&mdash;", r.value.1))
    else None
  }

  /** A rule that does not match passes the turn to the next one. */
  lemma FirstRuleSkip(rules: seq<string>, s: string, other: (string, string) -> Option<nat>)
    requires rules != [] && MatchLength(rules[0], s, other).None?
    ensures FirstRule(rules, s, other) == FirstRule(rules[1..], s, other)
  {
  }

  // ---------------------------------------------------------------------------
  // Properties

  predicate NoDot(s: string) {
    forall i :: 0 <= i < |s| ==> s[i] != '.'
  }

  /** p ends t, holds no dot, and is either all of t or preceded by a dot. */
  predicate LastPieceOf(t: string, p: string) {
    NoDot(p) && |p| <= |t| && t[|t| - |p|..] == p && (|p| == |t| || t[|t| - |p| - 1] == '.')
  }

  /** Text in front of t keeps p its last piece, provided a dot separates them when p is all of t. */
  lemma LastPiecePrefixed(a: string, t: string, p: string)
    requires LastPieceOf(t, p)
    requires |p| == |t| ==> a != [] && a[|a| - 1] == '.'
    ensures LastPieceOf(a + t, p)
  {
    var u := a + t;
    assert u[|u| - |p|..] == t[|t| - |p|..];
    if |p| == |t| {
      assert u[|u| - |p| - 1] == a[|a| - 1];
    } else {
      assert u[|u| - |p| - 1] == t[|t| - |p| - 1];
    }
  }

  /**
   * The last piece of a split on `.` holds no dot, ends the string, and is
   * either the whole string or preceded by a dot.
   */
  lemma {:induction false} LastPiece(s: string, current: string)
    requires NoDot(current)
    ensures var pieces := SplitFrom(s, ".", current);
      LastPieceOf(current + s, pieces[|pieces| - 1])
    decreases |s|
  {
    SplitOnDot(s, current);
    if s == [] {
      assert current + s == current;
    } else if s[0] == '.' {
      var rest := SplitFrom(s[1..], ".", []);
      assert LastPieceOf([] + s[1..], rest[|rest| - 1]) by {
        LastPiece(s[1..], []);
      }
      assert ([current] + rest)[|rest|] == rest[|rest| - 1];
      assert [] + s[1..] == s[1..];
      MoveFirst(current, s);
      LastPiecePrefixed(current + [s[0]], s[1..], rest[|rest| - 1]);
    } else {
      LastPiece(s[1..], current + [s[0]]);
      MoveFirst(current, s);
    }
  }

  lemma MoveFirst(a: string, s: string)
    requires s != []
    ensures a + s == (a + [s[0]]) + s[1..]
  {
    assert s == [s[0]] + s[1..];
  }

  /** One step of the split on `.`. */
  lemma SplitOnDot(s: string, current: string)
    ensures s == [] ==> SplitFrom(s, ".", current) == [current]
    ensures s != [] && s[0] == '.' ==> SplitFrom(s, ".", current) == [current] + SplitFrom(s[1..], ".", [])
    ensures s != [] && s[0] != '.' ==>
      NoDot(current) ==> NoDot(current + [s[0]]) && SplitFrom(s, ".", current) == SplitFrom(s[1..], ".", current + [s[0]])
  {
    if s != [] {
      assert StartsWith(s, ".") <==> s[0] == '.';
    }
  }

  /** The tag name shown is the part of the qualified name after its last dot, or all of it when there is none. */
  lemma LastComponentMeaning(qualname: string)
    ensures NoDot(LastComponent(qualname))
    ensures EndsWith(qualname, LastComponent(qualname))
    ensures LastComponent(qualname) == qualname || qualname[|qualname| - |LastComponent(qualname)| - 1] == '.'
  {
    var pieces := Split(qualname, ".");
    assert LastPieceOf([] + qualname, pieces[|pieces| - 1]) by {
      LastPiece(qualname, []);
    }
    assert [] + qualname == qualname;
    assert LastComponent(qualname) == pieces[|pieces| - 1];
  }

  /** `-->` is an arrow, not a dash followed by `>`, whatever the parser's own rules are. */
  lemma RightArrowWins(defaults: seq<string>, s: string, other: (string, string) -> Option<nat>)
    requires StartsWith(s, "-->")
    ensures Step(defaults, s, other) == Some(("&rarr;", 3))
  {
    var rules := VoussoirRules(defaults);
    VoussoirRulesOrder(defaults);
    assert s[0] == '-';
    assert !StartsWith(s, "[tag:");
    FirstRuleSkip(rules, s, other);
  }

  /** `<--` is an arrow, not the start of a tag or a dash. */
  lemma LeftArrowWins(defaults: seq<string>, s: string, other: (string, string) -> Option<nat>)
    requires StartsWith(s, "<--")
    ensures Step(defaults, s, other) == Some(("&larr;", 3))
  {
    var rules := VoussoirRules(defaults);
    VoussoirRulesOrder(defaults);
    assert s[0] == '<';
    assert !StartsWith(s, "[tag:") && !StartsWith(s, "-->");
    FirstRuleSkip(rules, s, other);
    FirstRuleSkip(rules[1..], s, other);
  }

  /** `--` not followed by `>` is an em dash. */
  lemma DashWins(defaults: seq<string>, s: string, other: (string, string) -> Option<nat>)
    requires StartsWith(s, "--") && !StartsWith(s, "-->")
    ensures Step(defaults, s, other) == Some(("&mdash;", 2))
  {
    var rules := VoussoirRules(defaults);
    VoussoirRulesOrder(defaults);
    assert s[0] == '-';
    assert !StartsWith(s, "[tag:") && !StartsWith(s, "<--");
    FirstRuleSkip(rules, s, other);
    FirstRuleSkip(rules[1..], s, other);
    FirstRuleSkip(rules[1..][1..], s, other);
  }

  /** `[tag:a.b]` becomes a tag link for `a.b` showing `[b]`, before any link rule of the parser sees it. */
  lemma CategoryTagWins(defaults: seq<string>, qualname: string, rest: string, other: (string, string) -> Option<nat>)
    requires qualname != [] && forall i :: 0 <= i < |qualname| ==> IsTagChar(qualname[i])
    ensures Step(defaults, "[tag:" + qualname + "]" + rest, other) == Some((OutputCategoryTag(qualname), |qualname| + 6))
  {
    VoussoirRulesOrder(defaults);
    var s := "[tag:" + qualname + "]" + rest;
    assert s[..5] == "[tag:";
    TagRunOf(qualname, "]" + rest);
    assert s[5..] == qualname + ("]" + rest);
    assert s[5..5 + |qualname|] == qualname;
    assert s[5 + |qualname|] == ']';
    var m := s[..|qualname| + 6];
    assert m[..5] == "[tag:" && m[5..] == qualname + "]";
    TagRunOf(qualname, "]");
    assert m[5..5 + |qualname|] == qualname;
  }

  lemma {:induction false} TagRunOf(run: string, rest: string)
    requires forall i :: 0 <= i < |run| ==> IsTagChar(run[i])
    requires rest != [] && !IsTagChar(rest[0])
    ensures TagRun(run + rest) == |run|
    decreases |run|
  {
    if run == [] {
      assert run + rest == rest;
    } else {
      assert (run + rest)[1..] == run[1..] + rest;
      TagRunOf(run[1..], rest);
    }
  }
}

/**
 * `add_toc`: a nested table of contents of the headings, placed after the
 * first h1. The builder keeps a cursor (`current_list`) into nested ordered
 * lists, each recording the heading level it was opened for.
 */
module Toc {
  import opened PyStr
  import opened Anchors

  /** `<li><a href=...>text</a>...</li>`: one entry of the table. */
  datatype TocEntry = TocEntry(href: string, text: string)
  datatype TocItem = TocItem(entry: TocEntry, sublists: seq<TocList>)
  /** A nested `<ol>` with the `level` the builder recorded on it (the source deletes these attributes at lines 260-261). */
  datatype TocList = TocList(level: int, items: seq<TocItem>)

  /** An entry together with the level of the list holding it. */
  datatype LeveledEntry = LeveledEntry(level: int, entry: TocEntry)

  // ---------------------------------------------------------------------------
  // Reading a table back: preorder flattening and nesting

  /** Preorder of a list's items, each paired with the list's level. */
  function FlatItems(items: seq<TocItem>, level: int): seq<LeveledEntry>
    decreases items
  {
    if items == [] then [] else FlatItems(items[..|items| - 1], level) + FlatItem(items[|items| - 1], level)
  }

  function FlatItem(item: TocItem, level: int): seq<LeveledEntry>
    decreases item
  {
    [LeveledEntry(level, item.entry)] + FlatLists(item.sublists)
  }

  function FlatLists(lists: seq<TocList>): seq<LeveledEntry>
    decreases lists
  {
    if lists == [] then [] else FlatLists(lists[..|lists| - 1]) + FlatItems(lists[|lists| - 1].items, lists[|lists| - 1].level)
  }

  function EntriesOf(les: seq<LeveledEntry>): (entries: seq<TocEntry>)
    ensures |entries| == |les|
  {
    if les == [] then [] else EntriesOf(les[..|les| - 1]) + [les[|les| - 1].entry]
  }

  /** Every list nested under these items records a deeper level than its parent list. */
  predicate NestedBelow(items: seq<TocItem>, level: int)
    decreases items
  {
    forall i :: 0 <= i < |items| ==> ItemNestedBelow(items[i], level)
  }

  predicate ItemNestedBelow(item: TocItem, level: int)
    decreases item
  {
    forall j :: 0 <= j < |item.sublists| ==>
      item.sublists[j].level > level && NestedBelow(item.sublists[j].items, item.sublists[j].level)
  }

  lemma {:induction false} EntriesOfAppend(a: seq<LeveledEntry>, b: seq<LeveledEntry>)
    ensures EntriesOf(a + b) == EntriesOf(a) + EntriesOf(b)
    decreases |b|
  {
    if b == [] {
      assert a + b == a;
    } else {
      assert (a + b)[..|a + b| - 1] == a + b[..|b| - 1];
      EntriesOfAppend(a, b[..|b| - 1]);
    }
  }

  /** The entries of a list do not depend on the level recorded on it. */
  lemma {:induction false} EntriesIgnoreLevel(items: seq<TocItem>, level: int, level': int)
    ensures EntriesOf(FlatItems(items, level)) == EntriesOf(FlatItems(items, level'))
    decreases |items|
  {
    if items != [] {
      var pre, last := items[..|items| - 1], items[|items| - 1];
      EntriesIgnoreLevel(pre, level, level');
      EntriesOfAppend(FlatItems(pre, level), FlatItem(last, level));
      EntriesOfAppend(FlatItems(pre, level'), FlatItem(last, level'));
      EntriesOfAppend([LeveledEntry(level, last.entry)], FlatLists(last.sublists));
      EntriesOfAppend([LeveledEntry(level', last.entry)], FlatLists(last.sublists));
      assert EntriesOf([LeveledEntry(level, last.entry)]) == [last.entry];
      assert EntriesOf([LeveledEntry(level', last.entry)]) == [last.entry];
    }
  }

  lemma NestedBelowLower(items: seq<TocItem>, level: int, lower: int)
    requires NestedBelow(items, level) && lower <= level
    ensures NestedBelow(items, lower)
  {
    forall i | 0 <= i < |items| ensures ItemNestedBelow(items[i], lower) {
      assert ItemNestedBelow(items[i], level);
    }
  }

  // ---------------------------------------------------------------------------
  // The builder

  /**
   * The state of the build. `root` holds the items of the top `<ol>` and
   * `open` the chain of nested lists from the root down to the cursor
   * (`current_list`): each is the last sublist of the last item of the list
   * before it. The source attaches a nested list as soon as it creates it;
   * here it is attached when the cursor climbs out of it, which gives the same
   * tree because everything is added at the end of that chain.
   */
  datatype Builder = Builder(rootLevel: Option<int>, root: seq<TocItem>, open: seq<TocList>)

  const Start := Builder(None, [], [])

  /** `current_list['level']`. */
  function CurrentLevel(b: Builder): Option<int> {
    if b.open == [] then b.rootLevel else Some(b.open[|b.open| - 1].level)
  }

  function OrZero(level: Option<int>): int {
    if level.Some? then level.value else 0
  }

  function RootLevelOr0(b: Builder): int {
    OrZero(b.rootLevel)
  }

  /** Preorder of the whole table under construction. */
  function FlatBuilder(b: Builder): seq<LeveledEntry> {
    FlatItems(b.root, RootLevelOr0(b)) + FlatLists(b.open)
  }

  /**
   * The builder's invariant: the root gets a level with its first entry, the
   * recorded levels strictly increase along the cursor path, every open list
   * below the root is non-empty, and the finished parts are nested correctly.
   */
  predicate Valid(b: Builder) {
    && (b.rootLevel.None? ==> b.root == [] && b.open == [])
    && (b.open != [] ==> b.rootLevel.Some? && b.root != [])
    && (forall k :: 0 <= k < |b.open| ==> b.open[k].items != [])
    && (b.open != [] ==> b.open[0].level > b.rootLevel.value)
    && (forall k :: 0 <= k < |b.open| - 1 ==> b.open[k].level < b.open[k + 1].level)
    && (b.rootLevel.Some? ==> NestedBelow(b.root, b.rootLevel.value))
    && (forall k :: 0 <= k < |b.open| ==> NestedBelow(b.open[k].items, b.open[k].level))
  }

  /** Once the root has a level it has an entry. */
  predicate Started(b: Builder) {
    b.rootLevel.Some? ==> b.root != []
  }

  /** Append `sub` to the sublists of the last item. */
  function AttachLast(items: seq<TocItem>, sub: TocList): (r: seq<TocItem>)
    requires items != []
    ensures |r| == |items|
  {
    var last := items[|items| - 1];
    items[..|items| - 1] + [last.(sublists := last.sublists + [sub])]
  }

  lemma FlatAttachLast(items: seq<TocItem>, sub: TocList, level: int)
    requires items != []
    ensures FlatItems(AttachLast(items, sub), level) == FlatItems(items, level) + FlatItems(sub.items, sub.level)
  {
    var pre, last := items[..|items| - 1], items[|items| - 1];
    var r := AttachLast(items, sub);
    assert r[..|r| - 1] == pre;
    assert FlatLists(last.sublists + [sub]) == FlatLists(last.sublists) + FlatItems(sub.items, sub.level) by {
      assert (last.sublists + [sub])[..|last.sublists|] == last.sublists;
    }
  }

  lemma NestedAttachLast(items: seq<TocItem>, sub: TocList, level: int)
    requires items != [] && NestedBelow(items, level)
    requires sub.level > level && NestedBelow(sub.items, sub.level)
    ensures NestedBelow(AttachLast(items, sub), level)
  {
    var r := AttachLast(items, sub);
    forall i | 0 <= i < |r| ensures ItemNestedBelow(r[i], level) {
      assert ItemNestedBelow(items[i], level);
    }
  }

  /** The cursor climbs one list up (`.parent` twice, lines 229-231). */
  function Ascend(b: Builder): (r: Builder)
    requires Valid(b) && b.open != []
    ensures r.rootLevel == b.rootLevel && |r.open| == |b.open| - 1
  {
    var top := b.open[|b.open| - 1];
    var rest := b.open[..|b.open| - 1];
    if rest == [] then b.(root := AttachLast(b.root, top), open := [])
    else
      var parent := rest[|rest| - 1];
      b.(open := rest[..|rest| - 1] + [parent.(items := AttachLast(parent.items, top))])
  }

  lemma AscendPreserves(b: Builder)
    requires Valid(b) && b.open != []
    ensures Valid(Ascend(b)) && Started(Ascend(b))
    ensures FlatBuilder(Ascend(b)) == FlatBuilder(b)
  {
    if |b.open| == 1 {
      AscendToRoot(b);
    } else {
      AscendToParent(b);
    }
  }

  lemma AscendToRoot(b: Builder)
    requires Valid(b) && |b.open| == 1
    ensures Valid(Ascend(b)) && Started(Ascend(b))
    ensures FlatBuilder(Ascend(b)) == FlatBuilder(b)
  {
    var top := b.open[0];
    assert b.open[..0] == [];
    assert FlatLists(b.open) == FlatLists([]) + FlatItems(top.items, top.level);
    FlatAttachLast(b.root, top, b.rootLevel.value);
    NestedAttachLast(b.root, top, b.rootLevel.value);
  }

  lemma AscendToParent(b: Builder)
    requires Valid(b) && |b.open| > 1
    ensures Valid(Ascend(b)) && Started(Ascend(b))
    ensures FlatBuilder(Ascend(b)) == FlatBuilder(b)
  {
    var top := b.open[|b.open| - 1];
    var popped := b.(open := b.open[..|b.open| - 1]);
    PopTop(b);
    var parent := popped.open[|popped.open| - 1];
    FlatAttachLast(parent.items, top, parent.level);
    NestedAttachLast(parent.items, top, parent.level);
    ReplaceTopPreserves(popped, parent.(items := AttachLast(parent.items, top)), FlatItems(top.items, top.level));
    assert Ascend(b) == popped.(open := popped.open[..|popped.open| - 1] + [parent.(items := AttachLast(parent.items, top))]);
  }

  /** Closing the innermost open list leaves a valid builder short of that list's preorder. */
  lemma PopTop(b: Builder)
    requires Valid(b) && |b.open| > 1
    ensures var popped := b.(open := b.open[..|b.open| - 1]);
            Valid(popped) && popped.open != [] &&
            b.open[|b.open| - 1].level > popped.open[|popped.open| - 1].level &&
            FlatBuilder(b) == FlatBuilder(popped) + FlatItems(b.open[|b.open| - 1].items, b.open[|b.open| - 1].level)
  {
    var popped := b.(open := b.open[..|b.open| - 1]);
    assert forall k :: 0 <= k < |popped.open| ==> popped.open[k] == b.open[k];
    assert b.open[|b.open| - 2].level < b.open[|b.open| - 1].level;
  }

  /** A new nested list for a deeper heading (lines 252-256). */
  function Descend(b: Builder, level: int): Builder {
    b.(open := b.open + [TocList(level, [])])
  }

  /** `current_list.append(toc_line)` (line 258). */
  function AppendEntry(b: Builder, e: TocEntry): Builder {
    var item := TocItem(e, []);
    if b.open == [] then b.(root := b.root + [item])
    else
      var top := b.open[|b.open| - 1];
      b.(open := b.open[..|b.open| - 1] + [top.(items := top.items + [item])])
  }

  lemma FlatAppendItem(items: seq<TocItem>, e: TocEntry, level: int)
    ensures FlatItems(items + [TocItem(e, [])], level) == FlatItems(items, level) + [LeveledEntry(level, e)]
  {
    assert (items + [TocItem(e, [])])[..|items|] == items;
    assert FlatItem(TocItem(e, []), level) == [LeveledEntry(level, e)] by {
      assert FlatLists([]) == [];
    }
  }

  lemma NestedAppendItem(items: seq<TocItem>, e: TocEntry, level: int)
    requires NestedBelow(items, level)
    ensures NestedBelow(items + [TocItem(e, [])], level)
  {
    var r := items + [TocItem(e, [])];
    forall i | 0 <= i < |r| ensures ItemNestedBelow(r[i], level) {
      if i < |items| {
        assert r[i] == items[i];
      }
    }
  }

  /** Appending at the cursor adds the entry at the cursor's level. */
  lemma AppendPreserves(b: Builder, e: TocEntry)
    requires Valid(b) && CurrentLevel(b).Some?
    ensures var r := AppendEntry(b, e);
            Valid(r) && Started(r) && r.rootLevel == b.rootLevel
            && FlatBuilder(r) == FlatBuilder(b) + [LeveledEntry(CurrentLevel(b).value, e)]
  {
    if b.open == [] {
      FlatAppendItem(b.root, e, b.rootLevel.value);
      NestedAppendItem(b.root, e, b.rootLevel.value);
    } else {
      var top := b.open[|b.open| - 1];
      FlatAppendItem(top.items, e, top.level);
      NestedAppendItem(top.items, e, top.level);
      ReplaceTopPreserves(b, top.(items := top.items + [TocItem(e, [])]), [LeveledEntry(top.level, e)]);
    }
  }

  /** Replacing the innermost open list by a non-empty, well-nested one that extends its preorder. */
  lemma ReplaceTopPreserves(b: Builder, top: TocList, added: seq<LeveledEntry>)
    requires Valid(b) && b.open != []
    requires top.level == b.open[|b.open| - 1].level && top.items != [] && NestedBelow(top.items, top.level)
    requires FlatItems(top.items, top.level) == FlatItems(b.open[|b.open| - 1].items, top.level) + added
    ensures var r := b.(open := b.open[..|b.open| - 1] + [top]);
            Valid(r) && Started(r) && FlatBuilder(r) == FlatBuilder(b) + added
  {
    ReplaceTopValid(b, top);
    ReplaceTopFlat(b, top, added);
  }

  lemma ReplaceTopFlat(b: Builder, top: TocList, added: seq<LeveledEntry>)
    requires b.open != [] && top.level == b.open[|b.open| - 1].level
    requires FlatItems(top.items, top.level) == FlatItems(b.open[|b.open| - 1].items, top.level) + added
    ensures FlatBuilder(b.(open := b.open[..|b.open| - 1] + [top])) == FlatBuilder(b) + added
  {
    var front, lists := FlatItems(b.root, RootLevelOr0(b)), FlatLists(b.open);
    ReplaceLastFlat(b.open, top, added);
    assert front + (lists + added) == (front + lists) + added;
  }

  lemma ReplaceTopValid(b: Builder, top: TocList)
    requires Valid(b) && b.open != []
    requires top.level == b.open[|b.open| - 1].level && top.items != [] && NestedBelow(top.items, top.level)
    ensures Valid(b.(open := b.open[..|b.open| - 1] + [top])) && Started(b.(open := b.open[..|b.open| - 1] + [top]))
  {
    var r := b.(open := b.open[..|b.open| - 1] + [top]);
    assert forall k :: 0 <= k < |r.open| - 1 ==> r.open[k] == b.open[k];
  }

  lemma ReplaceLastFlat(lists: seq<TocList>, top: TocList, added: seq<LeveledEntry>)
    requires lists != [] && top.level == lists[|lists| - 1].level
    requires FlatItems(top.items, top.level) == FlatItems(lists[|lists| - 1].items, top.level) + added
    ensures FlatLists(lists[..|lists| - 1] + [top]) == FlatLists(lists) + added
  {
    var rest := lists[..|lists| - 1];
    assert (rest + [top])[..|rest|] == rest;
  }

  /** Pushing a non-empty, deeper, well-nested list keeps the builder valid. */
  lemma PushPreserves(b: Builder, top: TocList)
    requires Valid(b) && CurrentLevel(b).Some? && top.level > CurrentLevel(b).value
    requires b.root != [] && top.items != [] && NestedBelow(top.items, top.level)
    ensures Valid(b.(open := b.open + [top]))
    ensures FlatBuilder(b.(open := b.open + [top])) == FlatBuilder(b) + FlatItems(top.items, top.level)
  {
    var r := b.(open := b.open + [top]);
    assert r.open[..|r.open| - 1] == b.open;
    assert forall k :: 0 <= k < |b.open| ==> r.open[k] == b.open[k];
  }

  /** Opening a deeper list and appending to it adds the entry at the new level. */
  lemma DescendAppendPreserves(b: Builder, level: int, e: TocEntry)
    requires Valid(b) && CurrentLevel(b).Some? && level > CurrentLevel(b).value
    requires b.open != [] || b.root != []
    ensures var r := AppendEntry(Descend(b, level), e);
            Valid(r) && Started(r) && r.rootLevel == b.rootLevel
            && FlatBuilder(r) == FlatBuilder(b) + [LeveledEntry(level, e)]
  {
    var item := TocItem(e, []);
    var d := Descend(b, level);
    assert d.open[..|d.open| - 1] == b.open;
    assert [] + [item] == [item];
    assert AppendEntry(d, e) == b.(open := b.open + [TocList(level, [item])]);
    assert FlatItems([item], level) == [LeveledEntry(level, e)] by {
      FlatAppendItem([], e, level);
    }
    assert NestedBelow([item], level);
    PushPreserves(b, TocList(level, [item]));
  }

  /**
   * Descend when the heading is deeper than the cursor, then append: the new
   * entry lands in a list whose recorded level is the heading's level.
   */
  lemma PlacePreserves(b: Builder, level: int, e: TocEntry)
    requires Valid(b) && CurrentLevel(b).Some? && level >= CurrentLevel(b).value
    requires level > CurrentLevel(b).value ==> b.open != [] || b.root != []
    ensures var b3 := if level > CurrentLevel(b).value then Descend(b, level) else b;
            var r := AppendEntry(b3, e);
            Valid(r) && Started(r) && r.rootLevel == b.rootLevel
            && FlatBuilder(r) == FlatBuilder(b) + [LeveledEntry(level, e)]
  {
    if level > CurrentLevel(b).value {
      DescendAppendPreserves(b, level, e);
    } else {
      AppendPreserves(b, e);
    }
  }

  // ---------------------------------------------------------------------------
  // The build as written

  /**
   * The climbing loop (lines 222-243) as written, where the recorded levels
   * allow it to stop: while the heading is shallower than the cursor's list,
   * move the cursor one list up. At the root it would never stop (see
   * ClimbAsWrittenNeverExits), so the heading must not be shallower than the root.
   */
  function Climb(b: Builder, level: int): (r: Builder)
    requires Valid(b) && b.rootLevel.Some? && level >= b.rootLevel.value
    ensures Valid(r) && r.rootLevel == b.rootLevel && (b.open == [] ==> r == b)
    ensures CurrentLevel(r).Some? && level >= CurrentLevel(r).value
    ensures (r.open != [] || r.root != []) || r == b
    ensures Started(b) ==> Started(r)
    ensures FlatBuilder(r) == FlatBuilder(b)
    decreases |b.open|
  {
    if level < CurrentLevel(b).value then
      AscendPreserves(b);
      Climb(Ascend(b), level)
    else b
  }

  /** One heading of the loop at lines 206-258, as written. */
  function Step(b: Builder, level: int, e: TocEntry): (r: Builder)
    requires Valid(b) && Started(b)
    requires b.rootLevel.Some? ==> level >= b.rootLevel.value
    ensures Valid(r) && Started(r)
    ensures r.rootLevel == if b.rootLevel.None? then Some(level) else b.rootLevel
    ensures FlatBuilder(r) == FlatBuilder(b) + [LeveledEntry(level, e)]
  {
    var b1 := if CurrentLevel(b).None? then b.(rootLevel := Some(level)) else b;
    StartPreserves(b, b1, level);
    var b2 := Climb(b1, level);
    assert level > CurrentLevel(b2).value ==> b2.open != [] || b2.root != [];
    PlacePreserves(b2, level, e);
    var b3 := if level > CurrentLevel(b2).value then Descend(b2, level) else b2;
    AppendEntry(b3, e)
  }

  /** Giving the root its level (lines 219-220) keeps the builder valid and adds no entry. */
  lemma StartPreserves(b: Builder, b1: Builder, level: int)
    requires Valid(b) && Started(b)
    requires b1 == if CurrentLevel(b).None? then b.(rootLevel := Some(level)) else b
    ensures Valid(b1) && b1.rootLevel.Some?
    ensures FlatBuilder(b1) == FlatBuilder(b)
    ensures b.rootLevel.Some? ==> b1 == b
    ensures b1.root == [] ==> b1.open == [] && b1.rootLevel == Some(level)
  {
    if b.rootLevel.None? {
      assert FlatItems([], level) == [] && FlatItems([], 0) == [];
    }
  }

  /** The headings the table can be built from as written: none shallower than the first. */
  predicate NoneShallowerThanFirst(es: seq<LeveledEntry>) {
    forall k :: 0 <= k < |es| ==> es[k].level >= es[0].level
  }

  /** The builder after the entries `es`, in order. */
  function Built(es: seq<LeveledEntry>): (b: Builder)
    requires NoneShallowerThanFirst(es)
    ensures Valid(b) && Started(b)
    ensures b.rootLevel == if es == [] then None else Some(es[0].level)
    ensures FlatBuilder(b) == es
  {
    if es == [] then Start
    else
      var prefix, last := es[..|es| - 1], es[|es| - 1];
      assert prefix != [] ==> prefix[0] == es[0];
      assert es == prefix + [LeveledEntry(last.level, last.entry)];
      var b := Built(prefix);
      assert b.rootLevel.Some? ==> last.level >= b.rootLevel.value;
      Step(b, last.level, last.entry)
  }

  lemma NoneShallowerPrefix(es: seq<LeveledEntry>, all: seq<LeveledEntry>)
    requires es <= all && NoneShallowerThanFirst(all)
    ensures NoneShallowerThanFirst(es)
  {
    assert es != [] ==> es[0] == all[0];
  }

  lemma BuiltSnoc(es: seq<LeveledEntry>, x: LeveledEntry)
    requires NoneShallowerThanFirst(es + [x])
    ensures NoneShallowerThanFirst(es)
    ensures Built(es).rootLevel.Some? ==> x.level >= Built(es).rootLevel.value
    ensures Built(es + [x]) == Step(Built(es), x.level, x.entry)
  {
    NoneShallowerPrefix(es, es + [x]);
    assert (es + [x])[..|es|] == es;
    assert es != [] ==> es[0] == (es + [x])[0];
    assert (es + [x])[|es|] == x;
  }

  /** Close every open list: the finished table's root items. */
  function Close(b: Builder): (items: seq<TocItem>)
    requires Valid(b)
    ensures FlatItems(items, RootLevelOr0(b)) == FlatBuilder(b)
    ensures b.rootLevel.Some? ==> NestedBelow(items, b.rootLevel.value)
    decreases |b.open|
  {
    if b.open == [] then
      assert FlatLists(b.open) == [];
      b.root
    else
      AscendPreserves(b);
      Close(Ascend(b))
  }

  // ---------------------------------------------------------------------------
  // Which headings take part

  /**
   * Does `hN` match `^h[1-{maxLevel}]$`? The digits of `maxLevel` are read as a
   * regular-expression character class: a range from 1 to its first digit,
   * then its remaining digits one by one.
   */
  predicate MatchesLevelPattern(level: Level, maxLevel: int)
    requires maxLevel >= 1
  {
    var digits := NatToString(maxLevel);
    var c := DigitChar(level);
    ('1' <= c <= digits[0]) || c in digits[1..]
  }

  /** For a single-digit maximum the pattern admits exactly the levels up to it. */
  lemma LevelPatternIsBound(level: Level, maxLevel: int)
    requires 1 <= maxLevel <= 9
    ensures MatchesLevelPattern(level, maxLevel) <==> level <= maxLevel
  {
    assert NatToString(maxLevel) == [DigitChar(maxLevel)];
  }

  /** A two-digit maximum such as 10 gives the class `[1-10]`, which admits only h1. */
  lemma LevelPatternForTen(level: Level)
    ensures MatchesLevelPattern(level, 10) <==> level == 1
  {
    assert NatToString(10) == NatToString(1) + [DigitChar(0)];
    assert NatToString(10) == "10";
  }

  /** `soup.h1`: the first h1. */
  function FirstH1(headings: seq<Heading>): (r: Option<nat>)
    ensures r.Some? ==> r.value < |headings| && headings[r.value].level == 1
    ensures r.Some? ==> forall k :: 0 <= k < r.value ==> headings[k].level != 1
    ensures r.None? ==> forall k :: 0 <= k < |headings| ==> headings[k].level != 1
  {
    if headings == [] then None
    else if headings[0].level == 1 then Some(0)
    else match FirstH1(headings[1..])
      case None => None
      case Some(i) => Some(i + 1)
  }

  /**
   * Does heading `i` get an entry? It must match the level pattern and differ
   * from the first h1; the source compares tags by value (name, attributes and
   * contents), which is what `!=` on `Heading` does.
   */
  predicate Qualifies(headings: seq<Heading>, i: nat, first: nat, maxLevel: int)
    requires i < |headings| && first < |headings| && maxLevel >= 1
  {
    headings[i] != headings[first] && MatchesLevelPattern(headings[i].level, maxLevel)
  }

  /** Once the anchor pass has given every heading a distinct id, only the first h1 itself is skipped. */
  lemma OnlyFirstH1Skipped(headings: seq<Heading>, i: nat, first: nat)
    requires i < |headings| && first < |headings|
    requires forall j :: 0 <= j < |headings| ==> headings[j].id.Some?
    requires forall j, k :: 0 <= j < k < |headings| ==> headings[j].id != headings[k].id
    ensures headings[i] != headings[first] <==> i != first
  {
    if i < first {
      assert headings[i].id != headings[first].id;
    } else if first < i {
      assert headings[first].id != headings[i].id;
    }
  }

  /** `str(header.find(text=True))`: the heading's first text node; "None" when it has none. */
  function FirstString(h: Heading): string {
    var strings := Strings(h);
    if strings == [] then "None" else strings[0]
  }

  function EntryOf(h: Heading): TocEntry
    requires h.id.Some?
  {
    TocEntry("#" + h.id.value, FirstString(h))
  }

  predicate IdsWhereNeeded(headings: seq<Heading>, first: nat, maxLevel: int)
    requires first < |headings| && maxLevel >= 1
  {
    forall i :: 0 <= i < |headings| && Qualifies(headings, i, first, maxLevel) ==> headings[i].id.Some?
  }

  /** The entries of the qualifying headings among the first `n`, in document order. */
  function QualifyingEntries(headings: seq<Heading>, first: nat, maxLevel: int, n: nat): seq<LeveledEntry>
    requires n <= |headings| && first < |headings| && maxLevel >= 1 && IdsWhereNeeded(headings, first, maxLevel)
  {
    if n == 0 then []
    else
      QualifyingEntries(headings, first, maxLevel, n - 1)
      + if Qualifies(headings, n - 1, first, maxLevel)
        then [LeveledEntry(headings[n - 1].level, EntryOf(headings[n - 1]))]
        else []
  }

  lemma {:induction false} QualifyingEntriesPrefix(headings: seq<Heading>, first: nat, maxLevel: int, i: nat, n: nat)
    requires i <= n <= |headings| && first < |headings| && maxLevel >= 1 && IdsWhereNeeded(headings, first, maxLevel)
    ensures QualifyingEntries(headings, first, maxLevel, i) <= QualifyingEntries(headings, first, maxLevel, n)
    decreases n - i
  {
    if i < n {
      QualifyingEntriesPrefix(headings, first, maxLevel, i, n - 1);
    }
  }

  function EffectiveMaxLevel(maxLevel: Option<int>): int {
    if maxLevel.None? then 6 else maxLevel.value
  }

  /**
   * What the source needs to finish: when there is an h1 and the maximum
   * level is valid, the qualifying headings carry ids (set by the anchor
   * pass) and none is shallower than the first of them.
   */
  predicate CanBuild(headings: seq<Heading>, maxLevel: Option<int>) {
    FirstH1(headings).Some? && EffectiveMaxLevel(maxLevel) >= 1 ==>
      var first, m := FirstH1(headings).value, EffectiveMaxLevel(maxLevel);
      IdsWhereNeeded(headings, first, m) && NoneShallowerThanFirst(QualifyingEntries(headings, first, m, |headings|))
  }

  /** The outcome of `add_toc`. */
  datatype TocResult =
    | Untouched                         // no h1: the tree is left alone
    | MaxLevelError                     // `ValueError('max_level must be >= 1.')`
    | Placed(after: nat, rootLevel: Option<int>, items: seq<TocItem>)
        // `<ol id="table_of_contents">Table of contents ...</ol>` inserted after heading `after`

  const TocId := "table_of_contents"
  const TocCaption := "Table of contents"

  /** `add_toc(soup, max_level)` as a function of the headings. */
  function AddTocSpec(headings: seq<Heading>, maxLevel: Option<int>): TocResult
    requires CanBuild(headings, maxLevel)
  {
    match FirstH1(headings)
    case None => Untouched
    case Some(first) =>
      if maxLevel.Some? && maxLevel.value < 1 then MaxLevelError
      else
        var b := Built(QualifyingEntries(headings, first, EffectiveMaxLevel(maxLevel), |headings|));
        Placed(first, b.rootLevel, Close(b))
  }

  /**
   * The body of the loop at lines 206-258 for one heading: give the root a
   * level if it has none, climb while the heading is shallower than the
   * cursor's list, open a deeper list if needed, and append the entry.
   */
  method PlaceEntry(b: Builder, level: int, entry: TocEntry) returns (b': Builder)
    requires Valid(b) && Started(b)
    requires b.rootLevel.Some? ==> level >= b.rootLevel.value
    ensures b' == Step(b, level, entry)
  {
    b' := b;
    if CurrentLevel(b').None? {
      b' := b'.(rootLevel := Some(level));
    }
    ghost var b1 := b';
    while level < CurrentLevel(b').value
      invariant Valid(b') && b'.rootLevel == b1.rootLevel
      invariant Climb(b', level) == Climb(b1, level)
      decreases |b'.open|
    {
      AscendPreserves(b');
      b' := Ascend(b');
    }
    if level > CurrentLevel(b').value {
      b' := Descend(b', level);
    }
    b' := AppendEntry(b', entry);
  }

  /** Every prefix of a buildable heading list is buildable. */
  lemma QualifyingPrefixBuildable(headings: seq<Heading>, first: nat, limit: int, i: nat)
    requires i <= |headings| && first < |headings| && limit >= 1 && IdsWhereNeeded(headings, first, limit)
    requires NoneShallowerThanFirst(QualifyingEntries(headings, first, limit, |headings|))
    ensures NoneShallowerThanFirst(QualifyingEntries(headings, first, limit, i))
  {
    QualifyingEntriesPrefix(headings, first, limit, i, |headings|);
    NoneShallowerPrefix(QualifyingEntries(headings, first, limit, i), QualifyingEntries(headings, first, limit, |headings|));
  }

  /** A qualifying heading adds one build step. */
  lemma BuiltQualifyingStep(headings: seq<Heading>, first: nat, limit: int, i: nat)
    requires i < |headings| && first < |headings| && limit >= 1 && IdsWhereNeeded(headings, first, limit)
    requires NoneShallowerThanFirst(QualifyingEntries(headings, first, limit, |headings|))
    requires Qualifies(headings, i, first, limit)
    ensures NoneShallowerThanFirst(QualifyingEntries(headings, first, limit, i))
    ensures NoneShallowerThanFirst(QualifyingEntries(headings, first, limit, i + 1))
    ensures var b := Built(QualifyingEntries(headings, first, limit, i));
            && (b.rootLevel.Some? ==> headings[i].level >= b.rootLevel.value)
            && Built(QualifyingEntries(headings, first, limit, i + 1)) == Step(b, headings[i].level, EntryOf(headings[i]))
  {
    QualifyingPrefixBuildable(headings, first, limit, i + 1);
    var es := QualifyingEntries(headings, first, limit, i);
    var x := LeveledEntry(headings[i].level, EntryOf(headings[i]));
    assert QualifyingEntries(headings, first, limit, i + 1) == es + [x];
    BuiltSnoc(es, x);
  }

  lemma QualifyingEntriesSkip(headings: seq<Heading>, first: nat, limit: int, i: nat)
    requires i < |headings| && first < |headings| && limit >= 1 && IdsWhereNeeded(headings, first, limit)
    requires !Qualifies(headings, i, first, limit)
    ensures QualifyingEntries(headings, first, limit, i + 1) == QualifyingEntries(headings, first, limit, i)
  {
  }

  /**
   * One pass of the loop at lines 206-258: skip the first h1 (and, through
   * `find_all`, the headings the level pattern rejects), otherwise build the
   * entry from the heading's first string and id and place it.
   */
  method VisitHeading(headings: seq<Heading>, first: nat, limit: int, i: nat, b: Builder) returns (b': Builder)
    requires i < |headings| && first < |headings| && limit >= 1 && IdsWhereNeeded(headings, first, limit)
    requires NoneShallowerThanFirst(QualifyingEntries(headings, first, limit, |headings|))
    requires NoneShallowerThanFirst(QualifyingEntries(headings, first, limit, i))
    requires b == Built(QualifyingEntries(headings, first, limit, i))
    ensures NoneShallowerThanFirst(QualifyingEntries(headings, first, limit, i + 1))
    ensures b' == Built(QualifyingEntries(headings, first, limit, i + 1))
  {
    var h := headings[i];
    if h != headings[first] && MatchesLevelPattern(h.level, limit) {
      BuiltQualifyingStep(headings, first, limit, i);
      var entry := EntryOf(h);
      b' := PlaceEntry(b, h.level, entry);
    } else {
      QualifyingEntriesSkip(headings, first, limit, i);
      b' := b;
    }
  }

  /** The loop at lines 206-258 over the headings, in document order. */
  method BuildToc(headings: seq<Heading>, first: nat, limit: int) returns (b: Builder)
    requires first < |headings| && limit >= 1 && IdsWhereNeeded(headings, first, limit)
    requires NoneShallowerThanFirst(QualifyingEntries(headings, first, limit, |headings|))
    ensures b == Built(QualifyingEntries(headings, first, limit, |headings|))
  {
    b := Start;
    assert QualifyingEntries(headings, first, limit, 0) == [];
    for i := 0 to |headings|
      invariant NoneShallowerThanFirst(QualifyingEntries(headings, first, limit, i))
      invariant b == Built(QualifyingEntries(headings, first, limit, i))
    {
      b := VisitHeading(headings, first, limit, i, b);
    }
  }

  /** The finished table of a build lists exactly its entries, nested lists deeper than their parents. */
  lemma ClosedBuilt(es: seq<LeveledEntry>)
    requires NoneShallowerThanFirst(es)
    ensures Built(es).rootLevel == (if es == [] then None else Some(es[0].level))
    ensures FlatItems(Close(Built(es)), if es == [] then 0 else es[0].level) == es
    ensures es != [] ==> NestedBelow(Close(Built(es)), es[0].level)
  {
    var b := Built(es);
    assert RootLevelOr0(b) == if es == [] then 0 else es[0].level;
  }

  /** With an h1 and a valid maximum level, the table is the closed build of the qualifying entries. */
  lemma AddTocSpecBuilt(headings: seq<Heading>, maxLevel: Option<int>)
    requires CanBuild(headings, maxLevel) && FirstH1(headings).Some? && EffectiveMaxLevel(maxLevel) >= 1
    ensures var first, m := FirstH1(headings).value, EffectiveMaxLevel(maxLevel);
      var es := QualifyingEntries(headings, first, m, |headings|);
      AddTocSpec(headings, maxLevel) == Placed(first, Built(es).rootLevel, Close(Built(es)))
  {
  }

  lemma PlacedFromBuilt(r: TocResult, first: nat, es: seq<LeveledEntry>)
    requires NoneShallowerThanFirst(es) && r == Placed(first, Built(es).rootLevel, Close(Built(es)))
    ensures r.Placed? && r.after == first
    ensures r.rootLevel == (if es == [] then None else Some(es[0].level))
    ensures FlatItems(r.items, if es == [] then 0 else es[0].level) == es
    ensures es != [] ==> NestedBelow(r.items, es[0].level)
  {
    ClosedBuilt(es);
  }

  /**
   * What `add_toc` promises: nothing without an h1, the error for a maximum
   * level below 1, and otherwise a table after the first h1 that lists every
   * qualifying heading once, in document order, at its own level, with each
   * nested list deeper than its parent.
   */
  lemma AddTocSpecPromises(headings: seq<Heading>, maxLevel: Option<int>)
    requires CanBuild(headings, maxLevel)
    ensures FirstH1(headings).None? ==> AddTocSpec(headings, maxLevel) == Untouched
    ensures FirstH1(headings).Some? && maxLevel.Some? && maxLevel.value < 1 ==> AddTocSpec(headings, maxLevel) == MaxLevelError
    ensures FirstH1(headings).Some? && EffectiveMaxLevel(maxLevel) >= 1 ==>
      var first, m := FirstH1(headings).value, EffectiveMaxLevel(maxLevel);
      var es := QualifyingEntries(headings, first, m, |headings|);
      var r := AddTocSpec(headings, maxLevel);
      && r.Placed? && r.after == first
      && r.rootLevel == (if es == [] then None else Some(es[0].level))
      && FlatItems(r.items, if es == [] then 0 else es[0].level) == es
      && (es != [] ==> NestedBelow(r.items, es[0].level))
  {
    if FirstH1(headings).Some? && EffectiveMaxLevel(maxLevel) >= 1 {
      AddTocSpecPlaced(headings, maxLevel);
    }
  }

  /** The placed table when there is an h1 and the maximum level is valid. */
  lemma AddTocSpecPlaced(headings: seq<Heading>, maxLevel: Option<int>)
    requires CanBuild(headings, maxLevel) && FirstH1(headings).Some? && EffectiveMaxLevel(maxLevel) >= 1
    ensures var first, m := FirstH1(headings).value, EffectiveMaxLevel(maxLevel);
      var es := QualifyingEntries(headings, first, m, |headings|);
      var r := AddTocSpec(headings, maxLevel);
      && r.Placed? && r.after == first
      && r.rootLevel == (if es == [] then None else Some(es[0].level))
      && FlatItems(r.items, if es == [] then 0 else es[0].level) == es
      && (es != [] ==> NestedBelow(r.items, es[0].level))
  {
    var first, m := FirstH1(headings).value, EffectiveMaxLevel(maxLevel);
    var es := QualifyingEntries(headings, first, m, |headings|);
    AddTocSpecBuilt(headings, maxLevel);
    PlacedFromBuilt(AddTocSpec(headings, maxLevel), first, es);
  }

  /**
   * `add_toc`: skip without an h1; reject a maximum level below 1; otherwise
   * walk the qualifying headings (all but the first h1) with a cursor into
   * nested lists and place the finished table after the first h1.
   */
  method AddToc(headings: seq<Heading>, maxLevel: Option<int>) returns (r: TocResult)
    requires CanBuild(headings, maxLevel)
    ensures r == AddTocSpec(headings, maxLevel)
  {
    var firstH1 := FirstH1(headings);
    if firstH1.None? {
      return Untouched;
    }
    var limit := 6;
    if maxLevel.Some? {
      if maxLevel.value < 1 {
        return MaxLevelError;
      }
      limit := maxLevel.value;
    }
    var b := BuildToc(headings, firstH1.value, limit);
    r := Placed(firstH1.value, b.rootLevel, Close(b));
  }

  // ---------------------------------------------------------------------------
  // The climb at the root, as written and as the comment at lines 232-240 intends

  /**
   * The state of the climbing loop at lines 222-243 as written: the builder
   * and the `level` attribute the loop writes on the `toc` document wrapper
   * (line 242). The guard reads the level of `toc.ol`, never that attribute.
   */
  datatype ClimbState = ClimbState(b: Builder, wrapperLevel: Option<int>)

  /** One pass of the loop body, lines 229-243. */
  function ClimbBodyAsWritten(s: ClimbState, level: int): (t: ClimbState)
    requires Valid(s.b)
    ensures Valid(t.b) && t.b.rootLevel == s.b.rootLevel
  {
    if s.b.open != [] then
      AscendPreserves(s.b);
      s.(b := Ascend(s.b))
    else
      // `.parent` of `toc.ol` is `toc`: its level is set and the cursor goes back to `toc.ol`
      s.(wrapperLevel := Some(level))
  }

  /** The loop run for at most `n` passes; it leaves early once the guard fails. */
  function ClimbAsWritten(s: ClimbState, level: int, n: nat): (t: ClimbState)
    requires Valid(s.b)
    ensures Valid(t.b) && t.b.rootLevel == s.b.rootLevel
    decreases n
  {
    if n == 0 || CurrentLevel(s.b).None? || level >= CurrentLevel(s.b).value then s
    else ClimbAsWritten(ClimbBodyAsWritten(s, level), level, n - 1)
  }

  /**
   * When the cursor reaches the root list and the heading is still shallower,
   * the loop makes no progress: after any number of passes the builder is
   * unchanged and the guard still holds, so `add_toc` never returns.
   */
  lemma {:induction false} ClimbAsWrittenNeverExits(s: ClimbState, level: int, n: nat)
    requires Valid(s.b) && s.b.open == [] && s.b.rootLevel.Some? && level < s.b.rootLevel.value
    ensures ClimbAsWritten(s, level, n).b == s.b
    ensures level < CurrentLevel(ClimbAsWritten(s, level, n).b).value
    decreases n
  {
    if n > 0 {
      ClimbAsWrittenNeverExits(ClimbBodyAsWritten(s, level), level, n - 1);
    }
  }

  /** Where the heading is not shallower than the root, the loop ends within `|open|` passes in the state Climb describes. */
  lemma {:induction false} ClimbAsWrittenReachesClimb(s: ClimbState, level: int, n: nat)
    requires Valid(s.b) && s.b.rootLevel.Some? && level >= s.b.rootLevel.value && n >= |s.b.open|
    ensures ClimbAsWritten(s, level, n).b == Climb(s.b, level)
    decreases n
  {
    if n > 0 && level < CurrentLevel(s.b).value {
      var t := ClimbBodyAsWritten(s, level);
      assert t.b == Ascend(s.b);
      assert ClimbAsWritten(s, level, n) == ClimbAsWritten(t, level, n - 1);
      assert Climb(s.b, level) == Climb(t.b, level);
      ClimbAsWrittenReachesClimb(t, level, n - 1);
    } else {
      assert ClimbAsWritten(s, level, n) == s;
    }
  }

  /**
   * The climb the comment at lines 232-240 describes: on reaching the root,
   * record the heading's level on the root list and stop, so an early deep
   * heading ends up at the same depth as a later shallower one.
   */
  function ClimbIntended(b: Builder, level: int): (r: Builder)
    requires Valid(b) && b.rootLevel.Some?
    ensures Valid(r) && r.rootLevel.Some? && r.rootLevel.value <= b.rootLevel.value
    ensures CurrentLevel(r).Some? && level >= CurrentLevel(r).value
    ensures Started(b) ==> Started(r)
    ensures b.root == [] ==> r.root == [] && r.open == [] && (level >= b.rootLevel.value ==> r == b)
    ensures EntriesOf(FlatBuilder(r)) == EntriesOf(FlatBuilder(b))
    decreases |b.open|
  {
    if level < CurrentLevel(b).value then
      if b.open == [] then
        ResetRootPreserves(b, level);
        b.(rootLevel := Some(level))
      else
        AscendPreserves(b);
        ClimbIntended(Ascend(b), level)
    else b
  }

  lemma ResetRootPreserves(b: Builder, level: int)
    requires Valid(b) && b.open == [] && b.rootLevel.Some? && level < b.rootLevel.value
    ensures Valid(b.(rootLevel := Some(level)))
    ensures EntriesOf(FlatBuilder(b.(rootLevel := Some(level)))) == EntriesOf(FlatBuilder(b))
  {
    NestedBelowLower(b.root, b.rootLevel.value, level);
    EntriesIgnoreLevel(b.root, level, b.rootLevel.value);
    assert FlatLists([]) == [];
    assert FlatBuilder(b) == FlatItems(b.root, b.rootLevel.value);
    assert FlatBuilder(b.(rootLevel := Some(level))) == FlatItems(b.root, level);
  }

  /** One heading with the intended climb. */
  function StepIntended(b: Builder, level: int, e: TocEntry): (r: Builder)
    requires Valid(b) && Started(b)
    ensures Valid(r) && Started(r) && r.rootLevel.Some?
    ensures EntriesOf(FlatBuilder(r)) == EntriesOf(FlatBuilder(b)) + [e]
  {
    var b1 := if CurrentLevel(b).None? then b.(rootLevel := Some(level)) else b;
    var b2 := ClimbIntended(b1, level);
    PlacePreserves(b2, level, e);
    var b3 := if level > CurrentLevel(b2).value then Descend(b2, level) else b2;
    var r := AppendEntry(b3, e);
    EntriesOfAppend(FlatBuilder(b2), [LeveledEntry(level, e)]);
    r
  }

  /** The builder after the entries `es` with the intended climb: defined for every order of levels. */
  function BuiltIntended(es: seq<LeveledEntry>): (b: Builder)
    ensures Valid(b) && Started(b) && (es != [] ==> b.rootLevel.Some?)
    ensures EntriesOf(FlatBuilder(b)) == EntriesOf(es)
  {
    if es == [] then Start
    else
      var prefix, last := es[..|es| - 1], es[|es| - 1];
      StepIntended(BuiltIntended(prefix), last.level, last.entry)
  }

  predicate CanBuildIntended(headings: seq<Heading>, maxLevel: Option<int>) {
    FirstH1(headings).Some? && EffectiveMaxLevel(maxLevel) >= 1 ==>
      IdsWhereNeeded(headings, FirstH1(headings).value, EffectiveMaxLevel(maxLevel))
  }

  /**
   * `add_toc` with the intended climb: every qualifying heading appears
   * exactly once, in document order, and nested lists are deeper than their
   * parents, whatever order the heading levels come in.
   */
  function AddTocIntended(headings: seq<Heading>, maxLevel: Option<int>): (r: TocResult)
    requires CanBuildIntended(headings, maxLevel)
    ensures FirstH1(headings).None? <==> r == Untouched
    ensures r == MaxLevelError <==> FirstH1(headings).Some? && maxLevel.Some? && maxLevel.value < 1
    ensures r.Placed? ==>
      var first, m := FirstH1(headings).value, EffectiveMaxLevel(maxLevel);
      && r.after == first
      && EntriesOf(FlatItems(r.items, OrZero(r.rootLevel))) == EntriesOf(QualifyingEntries(headings, first, m, |headings|))
      && NestedBelow(r.items, OrZero(r.rootLevel))
  {
    match FirstH1(headings)
    case None => Untouched
    case Some(first) =>
      if maxLevel.Some? && maxLevel.value < 1 then MaxLevelError
      else
        var b := BuiltIntended(QualifyingEntries(headings, first, EffectiveMaxLevel(maxLevel), |headings|));
        Placed(first, b.rootLevel, Close(b))
  }

  lemma {:induction false} ClimbAgrees(b: Builder, level: int)
    requires Valid(b) && b.rootLevel.Some? && level >= b.rootLevel.value
    ensures ClimbIntended(b, level) == Climb(b, level)
    decreases |b.open|
  {
    if level < CurrentLevel(b).value {
      AscendPreserves(b);
      ClimbAgrees(Ascend(b), level);
    }
  }

  lemma StepAgrees(b: Builder, level: int, e: TocEntry)
    requires Valid(b) && Started(b)
    requires b.rootLevel.Some? ==> level >= b.rootLevel.value
    ensures StepIntended(b, level, e) == Step(b, level, e)
  {
    var b1 := if CurrentLevel(b).None? then b.(rootLevel := Some(level)) else b;
    StartPreserves(b, b1, level);
    ClimbAgrees(b1, level);
    StepUnfold(b, level, e);
    StepIntendedUnfold(b, level, e);
  }

  /** The step as written climbs, descends when the heading is deeper, then appends. */
  lemma StepUnfold(b: Builder, level: int, e: TocEntry)
    requires Valid(b) && Started(b)
    requires b.rootLevel.Some? ==> level >= b.rootLevel.value
    ensures var b1 := if CurrentLevel(b).None? then b.(rootLevel := Some(level)) else b;
            Valid(b1) && b1.rootLevel.Some? && level >= b1.rootLevel.value &&
            var b2 := Climb(b1, level);
            Step(b, level, e) == AppendEntry(if level > CurrentLevel(b2).value then Descend(b2, level) else b2, e)
  {
    var b1 := if CurrentLevel(b).None? then b.(rootLevel := Some(level)) else b;
    StartPreserves(b, b1, level);
  }

  /** Where the source terminates, the intended build is the build as written. */
  lemma {:induction false} BuiltAgrees(es: seq<LeveledEntry>)
    requires NoneShallowerThanFirst(es)
    ensures BuiltIntended(es) == Built(es)
  {
    if es != [] {
      var prefix, last := es[..|es| - 1], es[|es| - 1];
      assert prefix != [] ==> prefix[0] == es[0];
      BuiltAgrees(prefix);
      var b := Built(prefix);
      assert BuiltIntended(es) == StepIntended(b, last.level, last.entry);
      assert Built(es) == Step(b, last.level, last.entry);
      StepAgrees(b, last.level, last.entry);
    }
  }

  /** Where the source terminates, `add_toc` with the intended climb gives the same table. */
  lemma AddTocAgrees(headings: seq<Heading>, maxLevel: Option<int>)
    requires CanBuild(headings, maxLevel)
    ensures CanBuildIntended(headings, maxLevel)
    ensures AddTocIntended(headings, maxLevel) == AddTocSpec(headings, maxLevel)
  {
    if FirstH1(headings).Some? && !(maxLevel.Some? && maxLevel.value < 1) {
      BuiltAgrees(QualifyingEntries(headings, FirstH1(headings).value, EffectiveMaxLevel(maxLevel), |headings|));
    }
  }

  // ---------------------------------------------------------------------------
  // Examples

  /** The first heading starts the root list at its own level. */
  lemma StepFirst(level: int, e: TocEntry)
    ensures Step(Start, level, e) == Builder(Some(level), [TocItem(e, [])], [])
  {
    var b1 := Start.(rootLevel := Some(level));
    assert Climb(b1, level) == b1;
    assert [] + [TocItem(e, [])] == [TocItem(e, [])];
  }

  /** With the cursor at the root, a heading at the root's level joins the root list. */
  lemma StepAtRoot(b: Builder, level: int, e: TocEntry)
    requires Valid(b) && Started(b) && b.rootLevel.Some? && b.open == [] && level == b.rootLevel.value
    ensures Step(b, level, e) == b.(root := b.root + [TocItem(e, [])])
  {
    assert Climb(b, level) == b;
  }

  /** With the cursor at the root, a deeper heading opens a list under the last root item. */
  lemma StepBelowRoot(b: Builder, level: int, e: TocEntry)
    requires Valid(b) && Started(b) && b.rootLevel.Some? && b.open == [] && level > b.rootLevel.value
    ensures Step(b, level, e) == b.(open := [TocList(level, [TocItem(e, [])])])
  {
    assert Climb(b, level) == b;
    var d := Descend(b, level);
    assert d.open == [TocList(level, [])] && d.open[..0] == [];
    assert [] + [TocItem(e, [])] == [TocItem(e, [])];
  }

  /** One list below the root, a heading at the root's level closes that list and joins the root list. */
  lemma StepOutOfOne(b: Builder, level: int, e: TocEntry)
    requires Valid(b) && Started(b) && b.rootLevel.Some? && |b.open| == 1 && level == b.rootLevel.value
    ensures Step(b, level, e) == Builder(b.rootLevel, AttachLast(b.root, b.open[0]) + [TocItem(e, [])], [])
  {
    AscendPreserves(b);
    var up := Ascend(b);
    assert b.open[..0] == [];
    assert up == Builder(b.rootLevel, AttachLast(b.root, b.open[0]), []);
    assert Climb(up, level) == up;
    assert Climb(b, level) == up;
  }

  /** With the intended climb, the first heading also starts the root list at its own level. */
  lemma StepIntendedFirst(level: int, e: TocEntry)
    ensures StepIntended(Start, level, e) == Builder(Some(level), [TocItem(e, [])], [])
  {
    var b1 := Start.(rootLevel := Some(level));
    StepIntendedUnfold(Start, level, e);
    assert ClimbIntended(b1, level) == b1;
    assert [] + [TocItem(e, [])] == [TocItem(e, [])];
  }

  /** The intended step climbs, descends when the heading is deeper, then appends. */
  lemma StepIntendedUnfold(b: Builder, level: int, e: TocEntry)
    requires Valid(b) && Started(b)
    ensures var b1 := if CurrentLevel(b).None? then b.(rootLevel := Some(level)) else b;
            var b2 := ClimbIntended(b1, level);
            StepIntended(b, level, e) == AppendEntry(if level > CurrentLevel(b2).value then Descend(b2, level) else b2, e)
  {
  }

  /** With the intended climb and the cursor at the root, a shallower heading resets the root's level and joins the root list. */
  lemma StepIntendedResetRoot(b: Builder, level: int, e: TocEntry)
    requires Valid(b) && Started(b) && b.rootLevel.Some? && b.open == [] && level < b.rootLevel.value
    ensures StepIntended(b, level, e) == Builder(Some(level), b.root + [TocItem(e, [])], [])
  {
    var b2 := b.(rootLevel := Some(level));
    assert ClimbIntended(b, level) == b2;
  }

  function H(level: Level, text: string, id: string): Heading {
    Heading(level, [text], Some(id), [])
  }

  /** The entry a heading built by `H` contributes. */
  lemma EntryOfH(level: Level, text: string, id: string)
    ensures EntryOf(H(level, text, id)) == TocEntry("#" + id, text)
  {
    assert Captions([]) == [];
    assert Strings(H(level, text, id)) == [text];
  }

  lemma LeavesNested(items: seq<TocItem>, level: int)
    requires forall i :: 0 <= i < |items| ==> items[i].sublists == []
    ensures NestedBelow(items, level)
  {
  }

  const EntryA := TocEntry("#a", "A")
  const EntryA1 := TocEntry("#a1", "A.1")
  const EntryB := TocEntry("#b", "B")

  /** h1 Intro, h2 A, h3 A.1, h2 B. */
  const NestedHeadings := [H(1, "Intro", "intro"), H(2, "A", "a"), H(3, "A.1", "a1"), H(2, "B", "b")]

  const LA := LeveledEntry(2, EntryA)
  const LA1 := LeveledEntry(3, EntryA1)
  const LB := LeveledEntry(2, EntryB)
  const NestedEntries := [LA, LA1, LB]

  lemma NestedHeadingFacts()
    ensures FirstH1(NestedHeadings) == Some(0)
    ensures IdsWhereNeeded(NestedHeadings, 0, 6)
    ensures !Qualifies(NestedHeadings, 0, 0, 6)
    ensures Qualifies(NestedHeadings, 1, 0, 6) && Qualifies(NestedHeadings, 2, 0, 6) && Qualifies(NestedHeadings, 3, 0, 6)
    ensures EntryOf(NestedHeadings[1]) == EntryA && EntryOf(NestedHeadings[2]) == EntryA1 && EntryOf(NestedHeadings[3]) == EntryB
  {
    var hs := NestedHeadings;
    LevelPatternIsBound(2, 6);
    LevelPatternIsBound(3, 6);
    assert hs[1].id != hs[0].id && hs[2].id != hs[0].id && hs[3].id != hs[0].id;
    EntryOfH(2, "A", "a");
    EntryOfH(3, "A.1", "a1");
    EntryOfH(2, "B", "b");
  }

  lemma NestedExampleEntries()
    ensures IdsWhereNeeded(NestedHeadings, 0, 6)
    ensures QualifyingEntries(NestedHeadings, 0, 6, 4) == NestedEntries
  {
    var hs := NestedHeadings;
    NestedHeadingFacts();
    assert QualifyingEntries(hs, 0, 6, 1) == [];
    assert QualifyingEntries(hs, 0, 6, 2) == [LA];
    assert QualifyingEntries(hs, 0, 6, 3) == [LA, LA1];
  }

  /** The builder holding one entry in its root list. */
  function Single(x: LeveledEntry): Builder {
    Builder(Some(x.level), [TocItem(x.entry, [])], [])
  }

  /** One list below the root, holding one entry. */
  function Two(x: LeveledEntry, y: LeveledEntry): Builder {
    Single(x).(open := [TocList(y.level, [TocItem(y.entry, [])])])
  }

  lemma SingleValid(x: LeveledEntry)
    ensures Valid(Single(x)) && Started(Single(x))
  {
    LeavesNested(Single(x).root, x.level);
  }

  lemma TwoValid(x: LeveledEntry, y: LeveledEntry)
    requires y.level > x.level
    ensures Valid(Two(x, y)) && Started(Two(x, y))
  {
    var b := Two(x, y);
    LeavesNested(b.root, x.level);
    LeavesNested(b.open[0].items, y.level);
  }

  lemma BuiltOne(x: LeveledEntry)
    ensures NoneShallowerThanFirst([x]) && Built([x]) == Single(x)
  {
    assert NoneShallowerThanFirst([x]) && Built([x]) == Step(Start, x.level, x.entry) by {
      assert [] + [x] == [x];
      BuiltSnoc([], x);
    }
    StepFirst(x.level, x.entry);
  }

  lemma StepBelowSingle(x: LeveledEntry, y: LeveledEntry)
    requires y.level > x.level
    ensures Valid(Single(x)) && Started(Single(x))
    ensures Step(Single(x), y.level, y.entry) == Two(x, y)
  {
    SingleValid(x);
    StepBelowRoot(Single(x), y.level, y.entry);
  }

  /** Two entries, the second deeper: the second opens a list under the first. */
  lemma BuiltDescend(x: LeveledEntry, y: LeveledEntry)
    requires y.level > x.level
    ensures NoneShallowerThanFirst([x, y])
    ensures Built([x, y]) == Two(x, y)
  {
    BuiltOne(x);
    assert [x] + [y] == [x, y];
    BuiltSnoc([x], y);
    StepBelowSingle(x, y);
  }

  lemma StepOutOfTwo(x: LeveledEntry, y: LeveledEntry, z: LeveledEntry)
    requires y.level > x.level && z.level == x.level
    ensures Valid(Two(x, y)) && Started(Two(x, y))
    ensures Step(Two(x, y), z.level, z.entry) == Builder(Some(x.level), [TocItem(x.entry, [TocList(y.level, [TocItem(y.entry, [])])]), TocItem(z.entry, [])], [])
  {
    var b := Two(x, y);
    TwoValid(x, y);
    StepOutOfOne(b, z.level, z.entry);
    var sub := b.open[0];
    assert b.root[..0] == [] && [] + [sub] == [sub];
    assert AttachLast(b.root, sub) == [TocItem(x.entry, [sub])];
  }

  /** Three entries: the second deeper, the third back at the first's level. */
  lemma BuiltDescendReturn(x: LeveledEntry, y: LeveledEntry, z: LeveledEntry)
    requires y.level > x.level && z.level == x.level
    ensures NoneShallowerThanFirst([x, y, z])
    ensures Built([x, y, z]) == Builder(Some(x.level), [TocItem(x.entry, [TocList(y.level, [TocItem(y.entry, [])])]), TocItem(z.entry, [])], [])
  {
    assert NoneShallowerThanFirst([x, y, z]);
    assert [x, y] + [z] == [x, y, z];
    BuiltSnoc([x, y], z);
    assert Built([x, y]) == Two(x, y) by {
      BuiltDescend(x, y);
    }
    StepOutOfTwo(x, y, z);
  }

  const NestedTree := [TocItem(EntryA, [TocList(3, [TocItem(EntryA1, [])])]), TocItem(EntryB, [])]

  /** The builder after A, A.1 and B: B is back in the root list and A.1's list hangs under A. */
  lemma NestedExampleBuilt()
    ensures NoneShallowerThanFirst(NestedEntries)
    ensures Built(NestedEntries) == Builder(Some(2), NestedTree, [])
  {
    BuiltDescendReturn(LA, LA1, LB);
  }

  lemma NestedCanBuild()
    ensures CanBuild(NestedHeadings, None)
  {
    NestedHeadingFacts();
    NestedExampleEntries();
    NestedExampleBuilt();
  }

  /**
   * h1 Intro, h2 A, h3 A.1, h2 B: the table goes after Intro; its root list
   * holds A and B, A holds a nested list with A.1 alone, B holds none.
   */
  lemma NestedExample()
    ensures CanBuild(NestedHeadings, None)
    ensures AddTocSpec(NestedHeadings, None) == Placed(0, Some(2), NestedTree)
  {
    NestedCanBuild();
    NestedHeadingFacts();
    NestedExampleEntries();
    NestedExampleBuilt();
    assert Close(Builder(Some(2), NestedTree, [])) == NestedTree;
  }

  const EntryX := TocEntry("#x", "X")
  const EntryY := TocEntry("#y", "Y")

  /** An h4 before the first h1, then a second h1: levels out of order. */
  const OutOfOrderHeadings := [H(4, "X", "x"), H(1, "Title", "title"), H(1, "Y", "y")]

  const X4 := LeveledEntry(4, EntryX)
  const Y1 := LeveledEntry(1, EntryY)
  const RootX := Builder(Some(4), [TocItem(EntryX, [])], [])
  const RootXY := Builder(Some(1), [TocItem(EntryX, []), TocItem(EntryY, [])], [])

  lemma OutOfOrderHeadingFacts()
    ensures FirstH1(OutOfOrderHeadings) == Some(1)
    ensures IdsWhereNeeded(OutOfOrderHeadings, 1, 6)
    ensures Qualifies(OutOfOrderHeadings, 0, 1, 6) && !Qualifies(OutOfOrderHeadings, 1, 1, 6) && Qualifies(OutOfOrderHeadings, 2, 1, 6)
    ensures EntryOf(OutOfOrderHeadings[0]) == EntryX && EntryOf(OutOfOrderHeadings[2]) == EntryY
  {
    var hs := OutOfOrderHeadings;
    LevelPatternIsBound(1, 6);
    LevelPatternIsBound(4, 6);
    assert hs[0].id != hs[1].id && hs[2].id != hs[1].id;
    EntryOfH(4, "X", "x");
    EntryOfH(1, "Y", "y");
  }

  lemma OutOfOrderEntries()
    ensures FirstH1(OutOfOrderHeadings) == Some(1)
    ensures IdsWhereNeeded(OutOfOrderHeadings, 1, 6)
    ensures QualifyingEntries(OutOfOrderHeadings, 1, 6, 3) == [X4, Y1]
  {
    var hs := OutOfOrderHeadings;
    OutOfOrderHeadingFacts();
    assert QualifyingEntries(hs, 1, 6, 1) == [X4];
    assert QualifyingEntries(hs, 1, 6, 2) == [X4];
  }

  lemma OutOfOrderNotBuildable()
    ensures !CanBuild(OutOfOrderHeadings, None)
  {
    OutOfOrderEntries();
    var es := [X4, Y1];
    assert es[1].level < es[0].level;
  }

  lemma OutOfOrderFirstBuilt()
    ensures Built([X4]) == RootX
  {
    BuiltOne(X4);
  }

  /**
   * As written, the table cannot be built for these headings: after X the
   * root list records level 4, and the climb for Y (level 1) reaches the root
   * and repeats forever with the builder unchanged.
   */
  lemma OutOfOrderAsWrittenHangs()
    ensures !CanBuild(OutOfOrderHeadings, None)
    ensures Built([X4]) == RootX
    ensures forall n: nat :: ClimbAsWritten(ClimbState(RootX, None), 1, n).b == RootX
  {
    OutOfOrderNotBuildable();
    OutOfOrderFirstBuilt();
    LeavesNested(RootX.root, 4);
    forall n: nat ensures ClimbAsWritten(ClimbState(RootX, None), 1, n).b == RootX {
      ClimbAsWrittenNeverExits(ClimbState(RootX, None), 1, n);
    }
  }

  lemma BuiltIntendedSnoc(es: seq<LeveledEntry>, x: LeveledEntry)
    ensures BuiltIntended(es + [x]) == StepIntended(BuiltIntended(es), x.level, x.entry)
  {
    assert (es + [x])[..|es|] == es;
  }

  lemma BuiltIntendedOne(x: LeveledEntry)
    ensures BuiltIntended([x]) == Single(x)
  {
    assert [x][..0] == [];
    StepIntendedFirst(x.level, x.entry);
  }

  lemma StepIntendedBelowSingle(x: LeveledEntry, y: LeveledEntry)
    requires y.level < x.level
    ensures Valid(Single(x)) && Started(Single(x))
    ensures StepIntended(Single(x), y.level, y.entry) == Builder(Some(y.level), [TocItem(x.entry, []), TocItem(y.entry, [])], [])
  {
    SingleValid(x);
    StepIntendedResetRoot(Single(x), y.level, y.entry);
  }

  /** With the intended climb, two entries, the second shallower: both in the root list, which takes the second's level. */
  lemma BuiltIntendedShallower(x: LeveledEntry, y: LeveledEntry)
    requires y.level < x.level
    ensures BuiltIntended([x, y]) == Builder(Some(y.level), [TocItem(x.entry, []), TocItem(y.entry, [])], [])
  {
    assert [x] + [y] == [x, y];
    BuiltIntendedSnoc([x], y);
    BuiltIntendedOne(x);
    StepIntendedBelowSingle(x, y);
  }

  /** `add_toc` with the intended climb, once the entries and the finished builder are known. */
  lemma AddTocIntendedPlaced(headings: seq<Heading>, first: nat, es: seq<LeveledEntry>, b: Builder)
    requires FirstH1(headings) == Some(first) && CanBuildIntended(headings, None)
    requires QualifyingEntries(headings, first, 6, |headings|) == es
    requires BuiltIntended(es) == b && b.open == []
    ensures AddTocIntended(headings, None) == Placed(first, b.rootLevel, b.root)
  {
  }

  /**
   * With the intended climb, X (an h4 before the first h1) and Y (a later h1)
   * both sit in the root list, side by side, and the root records level 1.
   */
  lemma OutOfOrderIntended()
    ensures CanBuildIntended(OutOfOrderHeadings, None)
    ensures AddTocIntended(OutOfOrderHeadings, None) == Placed(1, Some(1), [TocItem(EntryX, []), TocItem(EntryY, [])])
  {
    OutOfOrderEntries();
    BuiltIntendedShallower(X4, Y1);
    AddTocIntendedPlaced(OutOfOrderHeadings, 1, [X4, Y1], RootXY);
  }
}

/** Slugs for header ids: `slugify` and `uniqify_slug`. */
module Slugs {
  import opened PyStr

  /** SLUG_CHARACTERS: ASCII lower-case letters, digits and the underscore. */
  predicate IsSlugChar(c: char) {
    'a' <= c <= 'z' || '0' <= c <= '9' || c == '_'
  }

  predicate IsSlug(s: string) {
    forall i :: 0 <= i < |s| ==> IsSlugChar(s[i])
  }

  /** `text.replace(' ', '_')`. */
  function SpacesToUnderscores(s: string): string {
    if s == [] then [] else [if s[0] == ' ' then '_' else s[0]] + SpacesToUnderscores(s[1..])
  }

  /** `[c for c in text if c in SLUG_CHARACTERS]`, joined. */
  function KeepSlugChars(s: string): (r: string)
    ensures IsSlug(r)
  {
    if s == [] then []
    else if IsSlugChar(s[0]) then [s[0]] + KeepSlugChars(s[1..])
    else KeepSlugChars(s[1..])
  }

  /** `slugify`: lower-case, spaces to underscores, then keep only slug characters. */
  function Slugify(text: string): (slug: string)
    ensures IsSlug(slug)
  {
    KeepSlugChars(SpacesToUnderscores(Lower(text)))
  }

  lemma {:induction false} SlugCharsSurviveEachStep(s: string)
    requires IsSlug(s)
    ensures Lower(s) == s && SpacesToUnderscores(s) == s && KeepSlugChars(s) == s
  {
    LowerOfLower(s);
    if s != [] {
      SlugCharsSurviveEachStep(s[1..]);
      assert s == [s[0]] + s[1..];
    }
  }

  /** A slug is its own slug. */
  lemma SlugifyFixesSlugs(s: string)
    requires IsSlug(s)
    ensures Slugify(s) == s
  {
    SlugCharsSurviveEachStep(s);
  }

  /** `slugify` is idempotent. */
  lemma SlugifyIdempotent(text: string)
    ensures Slugify(Slugify(text)) == Slugify(text)
  {
    SlugifyFixesSlugs(Slugify(text));
  }

  lemma {:induction false} SpacesToUnderscoresAppend(a: string, b: string)
    ensures SpacesToUnderscores(a + b) == SpacesToUnderscores(a) + SpacesToUnderscores(b)
  {
    if a == [] {
      assert a + b == b;
    } else {
      assert (a + b)[1..] == a[1..] + b;
      SpacesToUnderscoresAppend(a[1..], b);
    }
  }

  lemma {:induction false} KeepSlugCharsAppend(a: string, b: string)
    ensures KeepSlugChars(a + b) == KeepSlugChars(a) + KeepSlugChars(b)
  {
    if a == [] {
      assert a + b == b;
    } else {
      assert (a + b)[1..] == a[1..] + b;
      KeepSlugCharsAppend(a[1..], b);
    }
  }

  /** Slugs are computed character by character: the slug of a concatenation is the concatenation of slugs. */
  lemma SlugifyAppend(a: string, b: string)
    ensures Slugify(a + b) == Slugify(a) + Slugify(b)
  {
    LowerAppend(a, b);
    SpacesToUnderscoresAppend(Lower(a), Lower(b));
    KeepSlugCharsAppend(SpacesToUnderscores(Lower(a)), SpacesToUnderscores(Lower(b)));
  }

  // ---------------------------------------------------------------------------
  // uniqify_slug

  /** `f'{slug}_{count}'`. */
  function Suffixed(slug: string, k: nat): string {
    slug + "_" + NatToString(k)
  }

  lemma SuffixedInjective(slug: string, j: nat, k: nat)
    requires Suffixed(slug, j) == Suffixed(slug, k)
    ensures j == k
  {
    var n := |slug| + 1;
    assert NatToString(j) == Suffixed(slug, j)[n..];
    assert NatToString(k) == Suffixed(slug, k)[n..];
    NatToStringInjective(j, k);
  }

  lemma SuffixedIsNotBase(slug: string, k: nat)
    ensures Suffixed(slug, k) != slug
  {
    assert |Suffixed(slug, k)| > |slug|;
  }

  /** The suffixed slugs already tried when the counter has reached `k`. */
  function Tried(slug: string, k: nat): set<string> {
    set j: nat | 2 <= j < k :: Suffixed(slug, j)
  }

  lemma TriedGrows(slug: string, k: nat)
    requires k >= 2
    ensures Suffixed(slug, k) !in Tried(slug, k)
    ensures Tried(slug, k + 1) == Tried(slug, k) + {Suffixed(slug, k)}
  {
    if Suffixed(slug, k) in Tried(slug, k) {
      var j: nat :| 2 <= j < k && Suffixed(slug, j) == Suffixed(slug, k);
      SuffixedInjective(slug, j, k);
    }
  }

  /**
   * The least counter `m >= k` whose suffixed slug is unused. It exists
   * because `used` is finite: each suffixed slug found in `used` is a new one
   * (the suffixes are distinct), so `used - Tried` shrinks at every step.
   */
  function FirstFreeIndex(slug: string, used: set<string>, k: nat): (m: nat)
    requires k >= 2
    ensures m >= k && Suffixed(slug, m) !in used
    ensures forall j: nat :: k <= j < m ==> Suffixed(slug, j) in used
    decreases used - Tried(slug, k)
  {
    if Suffixed(slug, k) !in used then k
    else
      TriedGrows(slug, k);
      FirstFreeIndex(slug, used, k + 1)
  }

  /** What `uniqify_slug` returns: `slug` itself if unused, else `slug_k` for the least free `k >= 2`. */
  function UniqueSlug(slug: string, used: set<string>): (r: string)
    ensures r !in used
    ensures slug !in used ==> r == slug
    ensures slug in used ==> exists k: nat :: k >= 2 && r == Suffixed(slug, k)
                                          && forall j: nat :: 2 <= j < k ==> Suffixed(slug, j) in used
  {
    if slug !in used then slug else Suffixed(slug, FirstFreeIndex(slug, used, 2))
  }

  /** The suffix chosen is the least free one, so any free suffix at or above it pins it down. */
  lemma FirstFreeIndexIsLeast(slug: string, used: set<string>, k: nat, m: nat)
    requires 2 <= k <= m
    requires Suffixed(slug, m) !in used
    requires forall j: nat :: k <= j < m ==> Suffixed(slug, j) in used
    ensures FirstFreeIndex(slug, used, k) == m
  {
    var f := FirstFreeIndex(slug, used, k);
    assert Suffixed(slug, f) !in used;
  }

  /**
   * `uniqify_slug(slug, used_slugs)`: the `while` loop tries `slug`, then
   * `slug_2`, `slug_3`, ... until one is unused; the set grows by exactly it.
   */
  method UniqifySlug(slug: string, used: set<string>) returns (r: string, usedAfter: set<string>)
    ensures r == UniqueSlug(slug, used)
    ensures r !in used && usedAfter == used + {r}
  {
    var count: nat := 2;
    var trySlug := slug;
    ghost var tried: set<string> := {};
    while trySlug in used
      invariant count >= 2
      invariant count == 2 ==> trySlug == slug && tried == {}
      invariant count > 2 ==> slug in used && trySlug == Suffixed(slug, count - 1)
      invariant count > 2 ==> tried == {slug} + Tried(slug, count - 1)
      invariant forall j: nat :: 2 <= j < count - 1 ==> Suffixed(slug, j) in used
      invariant tried <= used && trySlug !in tried
      decreases used - tried
    {
      tried := tried + {trySlug};
      if count > 2 {
        TriedGrows(slug, count - 1);
      }
      trySlug := Suffixed(slug, count);
      SuffixedIsNotBase(slug, count);
      TriedGrows(slug, count);
      count := count + 1;
    }
    if count > 2 {
      FirstFreeIndexIsLeast(slug, used, 2, count - 1);
    }
    r := trySlug;
    usedAfter := used + {r};
  }
}

/**
 * Slugs: Django's `slugify`, and the studio's `unique_slug`, which cleans a
 * requested slug, falls back to the title or a random number, and then
 * appends a growing stack of `-new` until no other post of the blog has it.
 */
module Slugs {
  import opened Wrappers
  import opened Text

  // ---------------------------------------------------------------- slugify

  /** The characters `slugify` can produce. */
  predicate IsSlugifyChar(c: char) {
    ('a' <= c <= 'z') || IsDigit(c) || c == '_' || c == '-'
  }

  /** Python's `\w` on ASCII after lower-casing. */
  predicate IsWordChar(c: char) {
    IsAlnum(c) || c == '_'
  }

  predicate IsDashOrSpace(c: char) {
    c == '-' || IsSpace(c)
  }

  predicate IsDashOrUnderscore(c: char) {
    c == '-' || c == '_'
  }

  /** The characters left after the first step of `slugify`. */
  predicate IsKeptChar(c: char) {
    ('a' <= c <= 'z') || IsDigit(c) || c == '_' || IsDashOrSpace(c)
  }

  predicate AllKept(s: string) {
    forall i :: 0 <= i < |s| ==> IsKeptChar(s[i])
  }

  /** Lower-case ASCII text, keeping only `[\w\s-]`. */
  function KeepWordSpaceDash(s: string): (r: string)
    ensures AllKept(r)
    ensures forall i :: 0 <= i < |s| && (('a' <= s[i] <= 'z') || IsDigit(s[i])) ==> s[i] in r
  {
    if |s| == 0 then ""
    else
      var c := LowerChar(s[0]);
      var rest := KeepWordSpaceDash(s[1..]);
      if c as int < 128 && (IsWordChar(c) || IsDashOrSpace(c)) then [c] + rest else rest
  }

  function DropDashSpace(s: string): (r: string)
    ensures |r| <= |s| && r == s[|s| - |r|..]
    ensures r == [] || !IsDashOrSpace(r[0])
    ensures AllKept(s) ==> AllKept(r)
  {
    if |s| > 0 && IsDashOrSpace(s[0]) then DropDashSpace(s[1..]) else s
  }

  predicate NoDashSpace(s: string) {
    forall i :: 0 <= i < |s| ==> !IsDashOrSpace(s[i])
  }

  /** Both character conditions carry over to the tail. */
  lemma TailKept(s: string)
    requires |s| > 0
    ensures AllKept(s) ==> AllKept(s[1..])
    ensures NoDashSpace(s) ==> NoDashSpace(s[1..])
  {
    assert forall i :: 0 <= i < |s| - 1 ==> s[1..][i] == s[i + 1];
  }

  predicate AllSlugifyChars(s: string) {
    forall i :: 0 <= i < |s| ==> IsSlugifyChar(s[i])
  }

  lemma ConsSlugify(c: char, t: string)
    requires IsSlugifyChar(c) && AllSlugifyChars(t)
    ensures AllSlugifyChars([c] + t)
  {
    assert forall i :: 1 <= i <= |t| ==> ([c] + t)[i] == t[i - 1];
  }

  /** `re.sub(r"[-\s]+", "-", s)`: each run of dashes and spaces becomes one dash. */
  function CollapseDashes(s: string): (r: string)
    requires AllKept(s)
    ensures AllSlugifyChars(r)
    ensures NoDashSpace(s) ==> r == s
    decreases |s|
  {
    if |s| == 0 then ""
    else
      TailKept(s);
      if IsDashOrSpace(s[0]) then
        var rest := CollapseDashes(DropDashSpace(s[1..]));
        ConsSlugify('-', rest);
        ['-'] + rest
      else
        assert IsKeptChar(s[0]);
        var rest := CollapseDashes(s[1..]);
        ConsSlugify(s[0], rest);
        [s[0]] + rest
  }

  function TrimDashUnderscoreStart(s: string): (r: string)
    ensures |r| <= |s| && r == s[|s| - |r|..]
    ensures r == [] || !IsDashOrUnderscore(r[0])
  {
    if |s| > 0 && IsDashOrUnderscore(s[0]) then TrimDashUnderscoreStart(s[1..]) else s
  }

  function TrimDashUnderscoreEnd(s: string): (r: string)
    ensures |r| <= |s| && r == s[..|r|]
    ensures r == [] || !IsDashOrUnderscore(r[|r| - 1])
  {
    if |s| > 0 && IsDashOrUnderscore(s[|s| - 1]) then TrimDashUnderscoreEnd(s[..|s| - 1]) else s
  }

  /** Django's `slugify` on ASCII text: lower-case, keep `[\w\s-]`, collapse
      runs of dashes and spaces to one dash, strip dashes and underscores at
      both ends. */
  function Slugify(s: string): (r: string)
    ensures forall i :: 0 <= i < |r| ==> IsSlugifyChar(r[i])
    ensures r == [] || (!IsDashOrUnderscore(r[0]) && !IsDashOrUnderscore(r[|r| - 1]))
  {
    TrimDashUnderscoreEnd(TrimDashUnderscoreStart(CollapseDashes(KeepWordSpaceDash(s))))
  }

  /** Digits survive `slugify` unchanged, so the random fallback is never empty. */
  lemma SlugifyDigits(s: string)
    requires forall i :: 0 <= i < |s| ==> IsDigit(s[i])
    ensures Slugify(s) == s
  {
    KeepDigits(s);
    assert CollapseDashes(s) == s;
    TrimsFixed(s);
  }

  /** A text with no dash or underscore at either end is left alone by the
      final trim. */
  lemma TrimsFixed(s: string)
    requires s == [] || (!IsDashOrUnderscore(s[0]) && !IsDashOrUnderscore(s[|s| - 1]))
    ensures TrimDashUnderscoreEnd(TrimDashUnderscoreStart(s)) == s
  {
  }

  lemma {:induction false} KeepDigits(s: string)
    requires forall i :: 0 <= i < |s| ==> IsDigit(s[i])
    ensures KeepWordSpaceDash(s) == s
    decreases |s|
  {
    if |s| > 0 {
      KeepDigits(s[1..]);
      assert s == [s[0]] + s[1..];
    }
  }

  // ---------------------------------------------------------------- unique_slug

  /** The characters `unique_slug` keeps from the requested slug. */
  predicate IsSlugChar(c: char) {
    IsAlnum(c) || c == '/' || c == '-' || c == '_'
  }

  /** `''.join(c for c in new_slug.lower() if c.isalnum() or c in '/-_')`. */
  function FilterSlugChars(s: string): (r: string)
    ensures forall i :: 0 <= i < |r| ==> IsSlugChar(r[i]) && !('A' <= r[i] <= 'Z')
    ensures |r| <= |s|
  {
    if |s| == 0 then ""
    else
      var c := LowerChar(s[0]);
      if IsSlugChar(c) then [c] + FilterSlugChars(s[1..]) else FilterSlugChars(s[1..])
  }

  /** A slug already in the shape `unique_slug` produces from clean input. */
  predicate IsCleanSlug(s: string) {
    && |s| > 0
    && (forall i :: 0 <= i < |s| ==> IsSlugChar(s[i]) && !('A' <= s[i] <= 'Z'))
    && s[0] != '/' && s[|s| - 1] != '/'
  }

  /** Filtering, then removing at most one trailing and one leading slash. */
  function CleanSlug(s: string): (r: string)
    ensures forall i :: 0 <= i < |r| ==> IsSlugChar(r[i]) && !('A' <= r[i] <= 'Z')
    ensures var f := FilterSlugChars(s);
      f == r || f == "/" + r || f == r + "/" || f == "/" + r + "/"
  {
    var f := FilterSlugChars(s);
    var t := if |f| > 0 && f[|f| - 1] == '/' then f[..|f| - 1] else f;
    var u := if |t| > 0 && t[0] == '/' then t[1..] else t;
    assert t == f || f == t + "/";
    assert u == t || t == "/" + u;
    u
  }

  /** A clean slug comes back from the cleaning step unchanged. */
  lemma {:induction false} CleanSlugFixed(s: string)
    requires IsCleanSlug(s)
    ensures CleanSlug(s) == s
  {
    FilterFixed(s);
  }

  lemma {:induction false} FilterFixed(s: string)
    requires forall i :: 0 <= i < |s| ==> IsSlugChar(s[i]) && !('A' <= s[i] <= 'Z')
    ensures FilterSlugChars(s) == s
    decreases |s|
  {
    if |s| > 0 {
      FilterFixed(s[1..]);
      assert s == [s[0]] + s[1..];
    }
  }

  /** A requested slug loses its spaces and punctuation rather than having
      them turned into dashes: `My Post!` becomes `mypost`. */
  lemma MyPostCleaned()
    ensures CleanSlug("My Post!") == "mypost"
  {
    MyPostFiltered();
  }

  lemma MyPostFiltered()
    ensures FilterSlugChars("My Post!") == "mypost"
  {
    YPostFiltered();
    assert "My Post!"[1..] == "y Post!";
  }

  lemma YPostFiltered()
    ensures FilterSlugChars("y Post!") == "ypost"
  {
    SpacePostFiltered();
    assert "y Post!"[1..] == " Post!";
  }

  lemma SpacePostFiltered()
    ensures FilterSlugChars(" Post!") == "post"
  {
    PostBangFiltered();
    assert " Post!"[1..] == "Post!";
  }

  lemma PostBangFiltered()
    ensures FilterSlugChars("Post!") == "post"
  {
    assert FilterSlugChars("!") == "" by {
      assert "!"[1..] == "";
    }
    assert FilterSlugChars("t!") == "t" by {
      assert "t!"[1..] == "!";
    }
    assert FilterSlugChars("st!") == "st" by {
      assert "st!"[1..] == "t!";
    }
    assert FilterSlugChars("ost!") == "ost" by {
      assert "ost!"[1..] == "st!";
    }
    assert "Post!"[1..] == "ost!";
  }

  /** The slug `unique_slug` starts its collision loop from: the cleaned
      request, else `slugify(title)`, else `slugify(str(rnd))` for the
      `random.randint(0, 9999)` draw `rnd`. */
  function BaseSlug(requested: string, title: string, rnd: nat): (r: string)
    requires rnd <= 9999
    ensures |r| > 0
    ensures CleanSlug(requested) != "" ==> r == CleanSlug(requested)
    ensures CleanSlug(requested) == "" && Slugify(title) != "" ==> r == Slugify(title)
    ensures CleanSlug(requested) == "" && Slugify(title) == "" ==> r == NatToString(rnd)
  {
    var cleaned := CleanSlug(requested);
    if cleaned != "" then cleaned
    else if Slugify(title) != "" then Slugify(title)
    else
      SlugifyDigits(NatToString(rnd));
      Slugify(NatToString(rnd))
  }

  /** The slugs of the blog's posts, as `(pk, slug)` rows. */
  type SlugStore = set<(nat, string)>

  /** Some post of the blog other than `pk` already has `slug`; `pk == None`
      (an unsaved post) excludes nothing, as `exclude(pk=None)` does. */
  predicate Taken(store: SlugStore, pk: Option<nat>, slug: string) {
    exists p :: p in store && p.1 == slug && Some(p.0) != pk
  }

  /** `"-new"` repeated `n` times. */
  function NewStack(n: nat): (r: string)
    ensures |r| == 4 * n
  {
    if n == 0 then "" else NewStack(n - 1) + "-new"
  }

  /** The slug tried after `k` collisions: the stack appended on the `k`-th
      retry is `k` copies of `-new`. */
  function Candidate(base: string, k: nat): string {
    if k == 0 then base else Candidate(base, k - 1) + NewStack(k)
  }

  ghost function MaxSlugLength(store: SlugStore): (m: nat)
    ensures forall p :: p in store ==> |p.1| <= m
    decreases store
  {
    if store == {} then 0
    else
      var p :| p in store;
      var m := MaxSlugLength(store - {p});
      if |p.1| > m then |p.1| else m
  }

  /** The collision loop of `unique_slug`. The result is free among the other
      posts, is the candidate reached after `rounds` retries, and every earlier
      candidate was taken. */
  method UniqueSlug(store: SlugStore, pk: Option<nat>, base: string)
    returns (slug: string, ghost rounds: nat)
    ensures !Taken(store, pk, slug)
    ensures slug == Candidate(base, rounds)
    ensures forall k :: 0 <= k < rounds ==> Taken(store, pk, Candidate(base, k))
    ensures !Taken(store, pk, base) ==> slug == base
  {
    slug := base;
    var stack := "-new";
    rounds := 0;
    while Taken(store, pk, slug)
      invariant slug == Candidate(base, rounds)
      invariant stack == NewStack(rounds + 1)
      invariant forall k :: 0 <= k < rounds ==> Taken(store, pk, Candidate(base, k))
      decreases MaxSlugLength(store) + 1 - |slug|
    {
      slug := slug + stack;
      stack := stack + "-new";
      rounds := rounds + 1;
    }
  }

  /** Every candidate extends the base. */
  lemma {:induction false} CandidateExtendsBase(base: string, k: nat)
    ensures StartsWith(Candidate(base, k), base)
    ensures |Candidate(base, k)| == |base| + 2 * k * (k + 1)
  {
    if k > 0 {
      CandidateExtendsBase(base, k - 1);
      var c := Candidate(base, k - 1);
      assert Candidate(base, k) == c + NewStack(k);
      assert (c + NewStack(k))[..|base|] == c[..|base|];
      StackGrowth(k);
    }
  }

  /** The first two stacks of `-new`. */
  lemma FirstStacks()
    ensures NewStack(1) == "-new"
    ensures NewStack(2) == "-new-new"
  {
    assert NewStack(1) == NewStack(0) + "-new";
    assert NewStack(2) == NewStack(1) + "-new";
  }

  lemma AppendAssoc(a: string, b: string, c: string)
    ensures (a + b) + c == a + (b + c)
  {
  }

  /** The arithmetic of one more stack: `2(k-1)k + 4k = 2k(k+1)`. */
  lemma StackGrowth(k: nat)
    requires k > 0
    ensures 2 * (k - 1) * k + 4 * k == 2 * k * (k + 1)
  {
  }

  /** The retry sequence: `launch`, `launch-new`, `launch-new-new-new`. */
  lemma FirstCandidates(base: string)
    ensures Candidate(base, 1) == base + "-new"
    ensures Candidate(base, 2) == base + "-new-new-new"
  {
    FirstStacks();
    assert Candidate(base, 0) == base;
    assert Candidate(base, 1) == base + NewStack(1);
    var c := base + "-new";
    assert Candidate(base, 2) == c + NewStack(2);
    AppendAssoc(base, "-new", "-new-new");
    ThreeStacked();
  }

  lemma ThreeStacked()
    ensures "-new" + "-new-new" == "-new-new-new"
  {
    var a, b, c := "-new", "-new-new", "-new-new-new";
    assert |a + b| == |c|;
    forall i | 0 <= i < |c| ensures (a + b)[i] == c[i] {
      if i < 4 {
        assert (a + b)[i] == a[i];
      } else {
        assert (a + b)[i] == b[i - 4];
      }
    }
  }

  /** A post keeps its own slug when no other post of the blog has it. */
  lemma KeepsUncontestedSlug(store: SlugStore, q: nat, s: string)
    requires IsCleanSlug(s)
    requires forall p :: p in store && p.1 == s ==> p.0 == q
    ensures !Taken(store, Some(q), CleanSlug(s))
    ensures CleanSlug(s) == s
  {
    CleanSlugFixed(s);
  }

  /** No two posts of the blog share a slug. */
  predicate DistinctSlugs(store: SlugStore) {
    forall p, p' :: p in store && p' in store && p.0 != p'.0 ==> p.1 != p'.1
  }

  /** The store after post `q` is saved with slug `s`. */
  function SaveSlug(store: SlugStore, q: nat, s: string): (r: SlugStore)
    ensures (q, s) in r
    ensures forall p :: p in r && p.0 != q ==> p in store
  {
    (set p | p in store && p.0 != q) + {(q, s)}
  }

  /** Saving a slug chosen by the collision loop keeps the blog's slugs distinct. */
  lemma SaveKeepsSlugsDistinct(store: SlugStore, q: nat, s: string)
    requires DistinctSlugs(store)
    requires !Taken(store, Some(q), s)
    ensures DistinctSlugs(SaveSlug(store, q, s))
  {
  }
}

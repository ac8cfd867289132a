/** Game-system slugs: `_make_slug` (backend/databridge.py:43-44, identical in
    backend/crud.py:40-41) and the counter loop of get_or_create_game_system that
    makes a slug unique among the existing rows. */
module Slug {
  import opened Text
  import opened Tables

  predicate IsSlugChar(c: char) {
    'a' <= c <= 'z' || '0' <= c <= '9'
  }

  /** Drops a leading run of characters outside [a-z0-9]. */
  function SkipRun(s: string): (r: string)
    ensures |r| <= |s| && r == s[|s| - |r|..]
    ensures r == [] || IsSlugChar(r[0])
    decreases |s|
  {
    if s == [] || IsSlugChar(s[0]) then s else SkipRun(s[1..])
  }

  /** re.sub(r"[^a-z0-9]+", "-", s): every maximal run outside [a-z0-9] becomes
      one '-'. */
  function Collapse(s: string): (r: string)
    ensures r == [] <==> s == []
    ensures s != [] && IsSlugChar(s[0]) ==> r[0] == s[0]
    decreases |s|
  {
    if s == [] then []
    else if IsSlugChar(s[0]) then [s[0]] + Collapse(s[1..])
    else "-" + Collapse(SkipRun(s[1..]))
  }

  /** Only [a-z0-9-] and never two '-' in a row. */
  predicate Collapsed(s: string) {
    (forall i :: 0 <= i < |s| ==> IsSlugChar(s[i]) || s[i] == '-')
    && (forall i :: 0 <= i < |s| - 1 ==> !(s[i] == '-' && s[i + 1] == '-'))
  }

  /** A slug: collapsed, and no '-' at either end. */
  predicate SlugShaped(s: string) {
    Collapsed(s) && (s != [] ==> s[0] != '-' && s[|s| - 1] != '-')
  }

  function MakeSlug(name: string): (r: string)
  {
    StripChar(Collapse(Lower(name)), '-')
  }

  /** Putting a character in front keeps a string collapsed, unless it makes a
      second '-' in a row. */
  lemma ConsCollapsed(c: char, t: string)
    requires Collapsed(t)
    requires IsSlugChar(c) || (c == '-' && (t == [] || t[0] != '-'))
    ensures Collapsed([c] + t)
  {
    var r := [c] + t;
    assert forall i :: 1 <= i < |r| ==> r[i] == t[i - 1];
  }

  lemma {:induction false} CollapseCollapsed(s: string)
    ensures Collapsed(Collapse(s))
    decreases |s|
  {
    if s == [] {
    } else if IsSlugChar(s[0]) {
      CollapseCollapsed(s[1..]);
      ConsCollapsed(s[0], Collapse(s[1..]));
    } else {
      var u := SkipRun(s[1..]);
      CollapseCollapsed(u);
      ConsCollapsed('-', Collapse(u));
      assert Collapse(s) == "-" + Collapse(u);
    }
  }

  /** A slice of a collapsed string is collapsed. */
  lemma CollapsedSlice(s: string, i: nat, j: nat)
    requires Collapsed(s) && i <= j <= |s|
    ensures Collapsed(s[i..j])
  {
    var t := s[i..j];
    assert forall k :: 0 <= k < |t| ==> t[k] == s[i + k];
  }

  /** `_make_slug` yields only [a-z0-9], single '-' separators, no '-' at the ends. */
  lemma MakeSlugShape(name: string)
    ensures SlugShaped(MakeSlug(name))
  {
    var c := Collapse(Lower(name));
    CollapseCollapsed(Lower(name));
    var l := StripCharLeft(c, '-');
    CollapsedSlice(c, |c| - |l|, |c|);
    var r := StripCharRight(l, '-');
    CollapsedSlice(l, 0, |r|);
  }

  lemma LowerOfSlug(s: string)
    requires Collapsed(s)
    ensures Lower(s) == s
  {
  }

  /** A collapsed string is left alone by the substitution. */
  lemma {:induction false} CollapseOfCollapsed(s: string)
    requires Collapsed(s)
    ensures Collapse(s) == s
    decreases |s|
  {
    if s != [] {
      CollapsedSlice(s, 1, |s|);
      if IsSlugChar(s[0]) {
        CollapseOfCollapsed(s[1..]);
      } else {
        assert s[1..] == [] || IsSlugChar(s[1]);
        assert SkipRun(s[1..]) == s[1..];
        CollapseOfCollapsed(s[1..]);
      }
    }
  }

  /** Making a slug from a slug changes nothing. */
  lemma MakeSlugIdempotent(name: string)
    ensures MakeSlug(MakeSlug(name)) == MakeSlug(name)
  {
    var s := MakeSlug(name);
    MakeSlugShape(name);
    LowerOfSlug(s);
    CollapseOfCollapsed(s);
    assert StripCharLeft(s, '-') == s;
    assert StripCharRight(s, '-') == s;
  }

  // ---------------------------------------------------------------------------
  // Uniqueness loop
  // ---------------------------------------------------------------------------

  /** f"{base_slug}-{counter}" */
  function Candidate(base: string, counter: nat): (r: string)
    ensures |r| > |base| && r[..|base|] == base
  {
    base + "-" + NatToString(counter)
  }

  lemma CandidateInjective(base: string, a: nat, b: nat)
    requires Candidate(base, a) == Candidate(base, b)
    ensures a == b
  {
    var ca := Candidate(base, a);
    assert NatToString(a) == ca[|base| + 1..];
    assert NatToString(b) == Candidate(base, b)[|base| + 1..];
    NatToStringInjective(a, b);
  }

  /** The query `GameSystem.slug == slug ... .first()` finds a row. */
  predicate SlugTaken(games: seq<GameSystem>, slug: string) {
    exists i :: 0 <= i < |games| && games[i].slug == slug
  }

  /** A slug no game system has is found by no lookup. */
  lemma NotTakenNotFound(games: seq<GameSystem>, slug: string)
    requires !SlugTaken(games, slug)
    ensures FirstIndex(games, GameSystemSlug, slug).None?
  {
    FoundIsTaken(games, slug);
  }

  /** A slug some lookup finds is taken. */
  lemma FoundIsTaken(games: seq<GameSystem>, slug: string)
    ensures FirstIndex(games, GameSystemSlug, slug).Some? ==> SlugTaken(games, slug)
  {
    var r := FirstIndex(games, GameSystemSlug, slug);
    if r.Some? {
      assert games[r.value].slug == slug;
    }
  }

  function SlugSet(games: seq<GameSystem>): set<string> {
    set i | 0 <= i < |games| :: games[i].slug
  }

  /** t is base or one of the candidates numbered below n. */
  ghost predicate Earlier(base: string, t: string, n: nat) {
    t == base || exists j: nat :: 1 <= j < n && t == Candidate(base, j)
  }

  /** One turn of the loop: the slug just found taken joins the tried ones, and the
      next candidate is none of them. */
  lemma TriedStep(base: string, tried: set<string>, slug: string, c: nat)
    requires c >= 1
    requires forall t :: t in tried ==> Earlier(base, t, c - 1)
    requires slug == if c == 1 then base else Candidate(base, c - 1)
    ensures forall t :: t in tried + {slug} ==> Earlier(base, t, c)
    ensures Candidate(base, c) !in tried + {slug}
  {
    forall t | t in tried + {slug} ensures Earlier(base, t, c) {
      if t in tried && t != base {
        var j: nat :| 1 <= j < c - 1 && t == Candidate(base, j);
      }
    }
    var next := Candidate(base, c);
    if next in tried + {slug} {
      assert Earlier(base, next, c);
      assert next != base;
      var j: nat :| 1 <= j < c && next == Candidate(base, j);
      CandidateInjective(base, j, c);
    }
  }

  lemma DiffShrinks<X>(a: set<X>, t: set<X>, x: X)
    requires x in a && x !in t
    ensures |a - (t + {x})| < |a - t|
  {
    assert a - (t + {x}) == (a - t) - {x};
    assert x in a - t;
  }

  /** slug is unused, and it is base when base is free, else the candidate after
      a run of used ones. */
  ghost predicate FirstFreeSlug(games: seq<GameSystem>, base: string, slug: string) {
    !SlugTaken(games, slug)
    && (!SlugTaken(games, base) ==> slug == base)
    && (SlugTaken(games, base) ==>
          exists k: nat :: 1 <= k && slug == Candidate(base, k)
            && forall j: nat :: 1 <= j < k ==> SlugTaken(games, Candidate(base, j)))
  }

  /** The first of base, base-1, base-2, … that no existing row uses. */
  method UniqueSlug(games: seq<GameSystem>, base: string) returns (slug: string)
    ensures FirstFreeSlug(games, base, slug)
  {
    slug := base;
    var counter: nat := 1;
    ghost var tried: set<string> := {};
    ghost var all := SlugSet(games);
    while SlugTaken(games, slug)
      invariant counter >= 1
      invariant slug == if counter == 1 then base else Candidate(base, counter - 1)
      invariant counter > 1 ==> SlugTaken(games, base)
      invariant forall j: nat :: 1 <= j < counter - 1 ==> SlugTaken(games, Candidate(base, j))
      invariant forall t :: t in tried ==> Earlier(base, t, counter - 1)
      invariant slug !in tried
      invariant tried <= all
      decreases |all - tried|
    {
      ghost var i :| 0 <= i < |games| && games[i].slug == slug;
      assert slug in all;
      TriedStep(base, tried, slug, counter);
      DiffShrinks(all, tried, slug);
      assert forall j: nat :: 1 <= j < counter ==> SlugTaken(games, Candidate(base, j));
      tried := tried + {slug};
      slug := Candidate(base, counter);
      counter := counter + 1;
    }
    if counter > 1 {
      assert 1 <= counter - 1 && slug == Candidate(base, counter - 1);
    }
  }
}

/**
 * Unique handles for candidate articles (`slugify` and the loop of `write_candidates` in
 * src/evals/candidates.py). A title's base comes from its first long words; numbering makes it unique.
 */
module Slugs {
  import opened Decimals
  import opened Sets

  /** The i-th handle tried: the base itself, then the base numbered from 2. */
  function Candidate(base: string, i: nat): string {
    if i == 0 then base else base + "-" + Decimal(i + 1)
  }

  /** No handle is tried twice. */
  lemma CandidatesDistinct(base: string, i: nat, j: nat)
    requires i != j
    ensures Candidate(base, i) != Candidate(base, j)
  {
    if Candidate(base, i) == Candidate(base, j) {
      var a, b := Candidate(base, i), Candidate(base, j);
      assert i > 0 ==> a[|base| + 1..] == Decimal(i + 1);
      assert j > 0 ==> b[|base| + 1..] == Decimal(j + 1);
      if i > 0 && j > 0 {
        DecimalInjective(i + 1, j + 1);
      }
    }
  }

  function Tried(base: string, n: nat): (r: set<string>)
    ensures forall s :: s in r <==> exists i :: 0 <= i < n && s == Candidate(base, i)
  {
    if n == 0 then {} else Tried(base, n - 1) + {Candidate(base, n - 1)}
  }

  lemma {:induction false} TriedSize(base: string, n: nat)
    ensures |Tried(base, n)| == n
  {
    if n > 0 {
      TriedSize(base, n - 1);
      forall i | 0 <= i < n - 1
        ensures Candidate(base, i) != Candidate(base, n - 1)
      {
        CandidatesDistinct(base, i, n - 1);
      }
    }
  }

  /** Pigeonhole: with n handles tried and all taken, at least n are taken. */
  lemma TakenBound(base: string, n: nat, taken: set<string>)
    requires forall i :: 0 <= i < n ==> Candidate(base, i) in taken
    ensures n <= |taken|
  {
    TriedSize(base, n);
    SubsetSmaller(Tried(base, n), taken);
  }

  /** The first free handle, and that all earlier ones were taken. */
  ghost predicate IsLeastFree(base: string, taken: set<string>, slug: string) {
    exists i: nat :: slug == Candidate(base, i) && slug !in taken && AllTaken(base, taken, i)
  }

  ghost predicate AllTaken(base: string, taken: set<string>, n: nat) {
    forall i :: 0 <= i < n ==> Candidate(base, i) in taken
  }

  class SlugSet {
    var taken: set<string>

    constructor ()
      ensures taken == {}
    {
      taken := {};
    }

    method Slugify(base: string) returns (slug: string)
      modifies this
      ensures IsLeastFree(base, old(taken), slug)
      ensures taken == old(taken) + {slug}
    {
      slug := base;
      var suffix := 2;
      while slug in taken
        invariant suffix >= 2 && taken == old(taken)
        invariant slug == Candidate(base, suffix - 2)
        invariant AllTaken(base, taken, suffix - 2)
        decreases |taken| + 2 - suffix
      {
        TakenBound(base, suffix - 1, taken);
        slug, suffix := base + "-" + Decimal(suffix), suffix + 1;
      }
      taken := taken + {slug};
    }
  }

  function Handles(slugs: seq<string>): set<string> {
    set slug | slug in slugs
  }

  /** Each handle is the first that was free when its title's turn came. */
  ghost predicate Written(bases: seq<string>, slugs: seq<string>)
    requires |slugs| <= |bases|
  {
    slugs != [] ==>
      var n := |slugs| - 1;
      Written(bases, slugs[..n]) && IsLeastFree(bases[n], Handles(slugs[..n]), slugs[n])
  }

  lemma OneMoreWritten(bases: seq<string>, slugs: seq<string>, slug: string)
    requires |slugs| < |bases| && Written(bases, slugs)
    requires IsLeastFree(bases[|slugs|], Handles(slugs), slug)
    ensures Written(bases, slugs + [slug])
    ensures Handles(slugs + [slug]) == Handles(slugs) + {slug}
  {
    assert (slugs + [slug])[..|slugs|] == slugs;
  }

  /** So all handles written for any list of titles are different. */
  lemma {:induction false} WrittenAreDistinct(bases: seq<string>, slugs: seq<string>)
    requires |slugs| <= |bases| && Written(bases, slugs)
    ensures forall i, j :: 0 <= i < j < |slugs| ==> slugs[i] != slugs[j]
  {
    if slugs != [] {
      var n := |slugs| - 1;
      var init := slugs[..n];
      WrittenAreDistinct(bases, init);
      forall i | 0 <= i < n
        ensures slugs[i] == init[i] && slugs[i] != slugs[n]
      {
        assert init[i] in Handles(init);
      }
    }
  }

  /** One handle for each title. */
  method WriteCandidates(bases: seq<string>) returns (slugs: seq<string>)
    ensures |slugs| == |bases| && Written(bases, slugs)
    ensures forall i, j :: 0 <= i < j < |slugs| ==> slugs[i] != slugs[j]
  {
    var taken := new SlugSet();
    slugs := [];
    for n := 0 to |bases|
      invariant fresh(taken)
      invariant |slugs| == n && Written(bases, slugs)
      invariant taken.taken == Handles(slugs)
    {
      var slug := taken.Slugify(bases[n]);
      OneMoreWritten(bases, slugs, slug);
      slugs := slugs + [slug];
    }
    WrittenAreDistinct(bases, slugs);
  }
}

/**
 * Scoring stored analyses against reference labels (src/evals/metrics.py): the greedy matching
 * of findings to labels, and the counts summed over one configuration.
 */
module Metrics {
  import opened Wrappers
  import opened Analyze
  import opened Sets

  const CONFIDENT: real := 0.7

  datatype Label = Label(technique: Technique, field: Field, start: int, end: int)

  datatype Scored = Scored(technique: Technique, field: Field, start: int, end: int, confidence: Option<real>)

  predicate Overlaps(f: Scored, l: Label) {
    f.field == l.field && f.start < l.end && l.start < f.end
  }

  predicate Matches(f: Scored, l: Label) {
    Overlaps(f, l) && f.technique == l.technique
  }

  predicate IsConfident(f: Scored) {
    (if f.confidence.Some? then f.confidence.value else 0.0) >= CONFIDENT
  }

  predicate HitsSpan(f: Scored, expected: seq<Label>) {
    exists i :: 0 <= i < |expected| && Overlaps(f, expected[i])
  }

  // ---------------------------------------------------------------------------
  // The greedy matching
  // ---------------------------------------------------------------------------

  /** `next(index ... if index not in matched_labels and matches(finding, label))`. */
  function FirstFree(f: Scored, expected: seq<Label>, taken: set<nat>, from: nat): (hit: Option<nat>)
    requires from <= |expected|
    ensures hit.Some? ==>
              && from <= hit.value < |expected| && hit.value !in taken && Matches(f, expected[hit.value])
              && forall i: nat :: from <= i < hit.value ==> i in taken || !Matches(f, expected[i])
    ensures hit.None? ==> forall i: nat :: from <= i < |expected| ==> i in taken || !Matches(f, expected[i])
    decreases |expected| - from
  {
    if from == |expected| then None
    else if from !in taken && Matches(f, expected[from]) then Some(from)
    else FirstFree(f, expected, taken, from + 1)
  }

  /** The label each of the first `n` findings took, in order of arrival. */
  function Greedy(found: seq<Scored>, expected: seq<Label>, n: nat): (hits: seq<Option<nat>>)
    requires n <= |found|
    ensures |hits| == n
  {
    if n == 0 then []
    else
      var earlier := Greedy(found, expected, n - 1);
      earlier + [FirstFree(found[n - 1], expected, Taken(earlier), 0)]
  }

  function Taken(hits: seq<Option<nat>>): set<nat> {
    if hits == [] then {}
    else
      var last := hits[|hits| - 1];
      Taken(hits[..|hits| - 1]) + if last.Some? then {last.value} else {}
  }

  function CountHits(hits: seq<Option<nat>>): nat {
    if hits == [] then 0 else CountHits(hits[..|hits| - 1]) + if hits[|hits| - 1].Some? then 1 else 0
  }

  /** Pairs of a finding and a label that match, no finding and no label twice. */
  ghost predicate ValidMatching(pairs: map<nat, nat>, found: seq<Scored>, expected: seq<Label>) {
    && (forall f :: f in pairs ==> f < |found| && pairs[f] < |expected| && Matches(found[f], expected[pairs[f]]))
    && (forall f, g :: f in pairs && g in pairs && f != g ==> pairs[f] != pairs[g])
  }

  lemma {:induction false} InTaken(hits: seq<Option<nat>>, l: nat)
    ensures l in Taken(hits) <==> exists k :: 0 <= k < |hits| && hits[k] == Some(l)
  {
    if hits != [] {
      InTaken(hits[..|hits| - 1], l);
      if l in Taken(hits[..|hits| - 1]) {
        var k :| 0 <= k < |hits| - 1 && hits[..|hits| - 1][k] == Some(l);
        assert hits[k] == Some(l);
      }
      if exists k :: 0 <= k < |hits| && hits[k] == Some(l) {
        var k :| 0 <= k < |hits| && hits[k] == Some(l);
        assert k < |hits| - 1 ==> hits[..|hits| - 1][k] == Some(l);
      }
    }
  }

  lemma OneMore(earlier: seq<Option<nat>>, hit: Option<nat>)
    ensures Taken(earlier + [hit]) == Taken(earlier) + if hit.Some? then {hit.value} else {}
    ensures CountHits(earlier + [hit]) == CountHits(earlier) + if hit.Some? then 1 else 0
  {
    assert (earlier + [hit])[..|earlier|] == earlier;
  }

  /** Each hit takes a label, one of its own. */
  lemma {:induction false} GreedyTakes(found: seq<Scored>, expected: seq<Label>, n: nat)
    requires n <= |found|
    ensures var hits := Greedy(found, expected, n);
            && |Taken(hits)| == CountHits(hits)
            && (forall l :: l in Taken(hits) ==> l < |expected|)
  {
    if n > 0 {
      GreedyTakes(found, expected, n - 1);
      var earlier := Greedy(found, expected, n - 1);
      HitTakes(earlier, FirstFree(found[n - 1], expected, Taken(earlier), 0), |expected|);
    }
  }

  lemma HitTakes(earlier: seq<Option<nat>>, hit: Option<nat>, labels: nat)
    requires |Taken(earlier)| == CountHits(earlier) && (forall l :: l in Taken(earlier) ==> l < labels)
    requires hit.Some? ==> hit.value < labels && hit.value !in Taken(earlier)
    ensures |Taken(earlier + [hit])| == CountHits(earlier + [hit])
    ensures forall l :: l in Taken(earlier + [hit]) ==> l < labels
  {
    OneMore(earlier, hit);
  }

  /** No label is taken twice. */
  lemma {:induction false} GreedyDistinct(found: seq<Scored>, expected: seq<Label>, n: nat, j: nat, k: nat)
    requires j < k < n <= |found|
    requires Greedy(found, expected, n)[j].Some? && Greedy(found, expected, n)[k].Some?
    ensures Greedy(found, expected, n)[j] != Greedy(found, expected, n)[k]
  {
    if k < n - 1 {
      GreedyDistinct(found, expected, n - 1, j, k);
    } else {
      InTaken(Greedy(found, expected, n - 1), Greedy(found, expected, n - 1)[j].value);
    }
  }

  function IndicesBelow(n: nat): (r: set<nat>)
    ensures |r| == n
    ensures forall i: nat :: i in r <==> i < n
  {
    if n == 0 then {} else IndicesBelow(n - 1) + {n - 1}
  }

  lemma TakenFits(found: seq<Scored>, expected: seq<Label>)
    ensures |Taken(Greedy(found, expected, |found|))| <= |expected|
  {
    GreedyTakes(found, expected, |found|);
    SubsetSmaller(Taken(Greedy(found, expected, |found|)), IndicesBelow(|expected|));
  }

  /** Labels are taken by findings they match. */
  lemma {:induction false} GreedyMatches(found: seq<Scored>, expected: seq<Label>, n: nat, k: nat)
    requires k < n <= |found| && Greedy(found, expected, n)[k].Some?
    ensures var l := Greedy(found, expected, n)[k].value; l < |expected| && Matches(found[k], expected[l])
  {
    if k < n - 1 {
      GreedyMatches(found, expected, n - 1, k);
    }
  }

  /** As pairs: the greedy result is itself a matching, with one pair for each hit. */
  function AsPairs(hits: seq<Option<nat>>): map<nat, nat> {
    map k | k in HitFindings(hits) :: hits[k].value
  }

  lemma GreedyIsAMatching(found: seq<Scored>, expected: seq<Label>)
    ensures var hits := Greedy(found, expected, |found|);
            ValidMatching(AsPairs(hits), found, expected) && |AsPairs(hits)| == CountHits(hits)
  {
    var hits := Greedy(found, expected, |found|);
    GreedyTakes(found, expected, |found|);
    HitFindingsCount(hits);
    forall f | f in AsPairs(hits)
      ensures f < |found| && AsPairs(hits)[f] < |expected| && Matches(found[f], expected[AsPairs(hits)[f]])
    {
      GreedyMatches(found, expected, |found|, f);
    }
    forall f, g | f in AsPairs(hits) && g in AsPairs(hits) && f < g
      ensures AsPairs(hits)[f] != AsPairs(hits)[g]
    {
      GreedyDistinct(found, expected, |found|, f, g);
    }
    assert AsPairs(hits).Keys == HitFindings(hits);
    assert |AsPairs(hits).Keys| == |AsPairs(hits)|;
  }

  /** A finding left without a label had every label it matches already taken. */
  lemma {:induction false} GreedyMaximal(found: seq<Scored>, expected: seq<Label>, n: nat, k: nat, l: nat)
    requires k < n <= |found| && l < |expected|
    requires Greedy(found, expected, n)[k].None? && Matches(found[k], expected[l])
    ensures l in Taken(Greedy(found, expected, n))
  {
    var earlier := Greedy(found, expected, n - 1);
    OneMore(earlier, FirstFree(found[n - 1], expected, Taken(earlier), 0));
    if k < n - 1 {
      GreedyMaximal(found, expected, n - 1, k, l);
    }
  }

  function HitFindings(hits: seq<Option<nat>>): set<nat> {
    set k | 0 <= k < |hits| && hits[k].Some?
  }

  lemma {:induction false} HitFindingsCount(hits: seq<Option<nat>>)
    ensures |HitFindings(hits)| == CountHits(hits)
  {
    if hits != [] {
      var n := |hits| - 1;
      HitFindingsCount(hits[..n]);
      assert HitFindings(hits) == HitFindings(hits[..n]) + if hits[n].Some? then {n} else {};
    }
  }

  /** Distinct findings paired with distinct labels of a set are no more than the set. */
  lemma InjectionBound(keys: set<nat>, pairs: map<nat, nat>, labels: set<nat>)
    requires keys <= pairs.Keys
    requires forall f :: f in keys ==> pairs[f] in labels
    requires forall f, g :: f in keys && g in keys && f != g ==> pairs[f] != pairs[g]
    ensures |keys| <= |labels|
    decreases keys
  {
    if keys != {} {
      var f :| f in keys;
      InjectionBound(keys - {f}, pairs, labels - {pairs[f]});
    }
  }

  lemma AtMostTwice(pairs: map<nat, nat>, hits: seq<Option<nat>>, taken: set<nat>, count: nat)
    requires forall f :: f in pairs ==> f < |hits| && (hits[f].None? ==> pairs[f] in taken)
    requires forall f, g :: f in pairs && g in pairs && f != g ==> pairs[f] != pairs[g]
    requires |taken| == count == |HitFindings(hits)|
    ensures |pairs| <= 2 * count
  {
    var sharing := set f | f in pairs.Keys && hits[f].Some?;
    var losing := set f | f in pairs.Keys && hits[f].None?;
    SubsetSmaller(sharing, HitFindings(hits));
    InjectionBound(losing, pairs, taken);
    assert pairs.Keys == sharing + losing;
    assert |pairs.Keys| == |pairs|;
  }

  /**
   * However the findings are ordered, the greedy matching is at least half as large as any
   * matching at all: a pair of the other matching lost by greedy lost to one of greedy's own.
   */
  lemma GreedyAtLeastHalf(found: seq<Scored>, expected: seq<Label>, pairs: map<nat, nat>)
    requires ValidMatching(pairs, found, expected)
    ensures |pairs| <= 2 * CountHits(Greedy(found, expected, |found|))
  {
    var hits := Greedy(found, expected, |found|);
    GreedyTakes(found, expected, |found|);
    HitFindingsCount(hits);
    forall f | f in pairs && hits[f].None?
      ensures pairs[f] in Taken(hits)
    {
      GreedyMaximal(found, expected, |found|, f, pairs[f]);
    }
    AtMostTwice(pairs, hits, Taken(hits), CountHits(hits));
  }

  /** Half is the best that can be promised: here greedy finds one pair where two exist. */
  lemma HalfIsTight()
    ensures exists found, expected, pairs ::
              && ValidMatching(pairs, found, expected)
              && |pairs| == 2 && CountHits(Greedy(found, expected, |found|)) == 1
  {
    var wide := Scored(FearAppeal, Title, 0, 10, None);
    var narrow := Scored(FearAppeal, Title, 0, 5, None);
    var left := Label(FearAppeal, Title, 0, 5);
    var right := Label(FearAppeal, Title, 5, 10);
    var found, expected := [wide, narrow], [left, right];
    var pairs: map<nat, nat> := map[0 := 1, 1 := 0];
    assert Greedy(found, expected, 0) == [];
    assert Greedy(found, expected, 1) == [Some(0)];
    assert Taken([Some(0)]) == {0} by {
      assert [Some(0 as nat)][..0] == [];
    }
    assert FirstFree(narrow, expected, {0}, 1) == FirstFree(narrow, expected, {0}, 2) == None;
    assert Greedy(found, expected, 2) == [Some(0), None];
    assert [Some(0 as nat), None][..1] == [Some(0)];
    assert [Some(0 as nat)][..0] == [];
    assert CountHits([Some(0 as nat)]) == 1;
    assert CountHits(Greedy(found, expected, 2)) == 1;
    assert ValidMatching(pairs, found, expected);
    assert |pairs| == |pairs.Keys| == |{0, 1}|;
  }

  /** The field and at least one character are common to both spans. */
  ghost predicate ShareCharacter(f: Scored, l: Label) {
    f.field == l.field && exists p :: InSpan(p, f.start, f.end) && InSpan(p, l.start, l.end)
  }

  predicate InSpan(p: int, start: int, end: int) {
    start <= p < end
  }

  /** Non-empty spans overlap exactly when some character lies in both; a match is also of one technique. */
  lemma OverlapsIff(f: Scored, l: Label)
    requires f.start < f.end && l.start < l.end
    ensures Overlaps(f, l) <==> ShareCharacter(f, l)
    ensures Matches(f, l) <==> ShareCharacter(f, l) && f.technique == l.technique
  {
    if Overlaps(f, l) {
      var p := if f.start < l.start then l.start else f.start;
      assert InSpan(p, f.start, f.end) && InSpan(p, l.start, l.end);
    }
  }
}

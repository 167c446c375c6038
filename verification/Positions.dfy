/** Positions of the elements that a filter keeps, in order. */
module Positions {

  ghost predicate Ascending(positions: seq<nat>) {
    forall i, j :: 0 <= i < j < |positions| ==> positions[i] < positions[j]
  }

  /** The positions at which a flag is `which`, all of them, in order. */
  ghost predicate ArePositions(positions: seq<nat>, flags: seq<bool>, which: bool) {
    && Ascending(positions)
    && (forall i :: 0 <= i < |positions| ==> positions[i] < |flags| && flags[positions[i]] == which)
    && (forall k :: 0 <= k < |flags| && flags[k] == which ==> k in positions)
  }

  lemma OneFlagMore(positions: seq<nat>, flags: seq<bool>, flag: bool, which: bool)
    requires ArePositions(positions, flags, which)
    ensures ArePositions(positions + if flag == which then [|flags|] else [], flags + [flag], which)
  {
    var longer, more := positions + (if flag == which then [|flags|] else []), flags + [flag];
    forall k | 0 <= k < |more| && more[k] == which
      ensures k in longer
    {
      if k == |flags| {
        assert longer[|positions|] == k;
      } else {
        assert flags[k] == which;
      }
    }
  }
}

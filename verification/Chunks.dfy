/**
 * Concatenations that remember where each element came from: `chunks[k]` is what position `k`
 * of some source contributes. The folded text and its origin map are one instance.
 */
module Chunks {

  function Flat<T>(chunks: seq<seq<T>>, lo: nat, hi: nat): seq<T>
    requires lo <= hi <= |chunks|
    decreases hi
  {
    if lo == hi then [] else Flat(chunks, lo, hi - 1) + chunks[hi - 1]
  }

  function Repeat(value: nat, n: nat): (r: seq<nat>)
    ensures |r| == n && forall i :: 0 <= i < n ==> r[i] == value
  {
    seq(n, _ => value)
  }

  /** The position each element of `Flat(chunks, 0, hi)` came from. */
  function Origins<T>(chunks: seq<seq<T>>, hi: nat): (r: seq<nat>)
    requires hi <= |chunks|
    ensures |r| == |Flat(chunks, 0, hi)|
    decreases hi
  {
    if hi == 0 then [] else Origins(chunks, hi - 1) + Repeat(hi - 1, |chunks[hi - 1]|)
  }

  lemma {:induction false} Split<T>(chunks: seq<seq<T>>, lo: nat, mid: nat, hi: nat)
    requires lo <= mid <= hi <= |chunks|
    ensures Flat(chunks, lo, hi) == Flat(chunks, lo, mid) + Flat(chunks, mid, hi)
    decreases hi
  {
    if mid < hi {
      Split(chunks, lo, mid, hi - 1);
    }
  }

  lemma {:induction false} Silent<T>(chunks: seq<seq<T>>, lo: nat, hi: nat)
    requires lo <= hi <= |chunks|
    requires forall k :: lo <= k < hi ==> chunks[k] == []
    ensures Flat(chunks, lo, hi) == []
    decreases hi
  {
    if lo < hi {
      Silent(chunks, lo, hi - 1);
    }
  }

  lemma {:induction false} Same<T>(left: seq<seq<T>>, i: nat, right: seq<seq<T>>, j: nat, n: nat)
    requires i + n <= |left| && j + n <= |right|
    requires left[i..i + n] == right[j..j + n]
    ensures Flat(left, i, i + n) == Flat(right, j, j + n)
  {
    if n > 0 {
      assert left[i..i + n][..n - 1] == left[i..i + n - 1];
      assert right[j..j + n][..n - 1] == right[j..j + n - 1];
      assert left[i..i + n][n - 1] == right[j..j + n][n - 1];
      Same(left, i, right, j, n - 1);
    }
  }

  lemma LengthMonotone<T>(chunks: seq<seq<T>>, a: nat, b: nat)
    requires a <= b <= |chunks|
    ensures |Flat(chunks, 0, a)| <= |Flat(chunks, 0, b)|
  {
    Split(chunks, 0, a, b);
  }

  lemma {:induction false} OriginAt<T>(chunks: seq<seq<T>>, hi: nat, x: nat)
    requires hi <= |chunks| && x < |Flat(chunks, 0, hi)|
    ensures var o := Origins(chunks, hi)[x];
            && o < hi
            && |Flat(chunks, 0, o)| <= x < |Flat(chunks, 0, o)| + |chunks[o]|
            && Flat(chunks, 0, hi)[x] == chunks[o][x - |Flat(chunks, 0, o)|]
    decreases hi
  {
    if x < |Flat(chunks, 0, hi - 1)| {
      OriginAt(chunks, hi - 1, x);
    }
  }

  lemma OriginsAscend<T>(chunks: seq<seq<T>>, hi: nat, x: nat, y: nat)
    requires hi <= |chunks| && x <= y < |Flat(chunks, 0, hi)|
    ensures Origins(chunks, hi)[x] <= Origins(chunks, hi)[y] < hi
  {
    OriginAt(chunks, hi, x);
    OriginAt(chunks, hi, y);
    var o, p := Origins(chunks, hi)[x], Origins(chunks, hi)[y];
    if p < o {
      LengthMonotone(chunks, p + 1, o);
    }
  }

  /** The converse: the elements of chunk `o` sit right after all earlier chunks. */
  lemma ChunkAt<T>(chunks: seq<seq<T>>, hi: nat, o: nat, i: nat)
    requires o < hi <= |chunks| && i < |chunks[o]|
    ensures |Flat(chunks, 0, o)| + i < |Flat(chunks, 0, hi)|
    ensures Origins(chunks, hi)[|Flat(chunks, 0, o)| + i] == o
  {
    var x := |Flat(chunks, 0, o)| + i;
    LengthMonotone(chunks, o + 1, hi);
    OriginAt(chunks, hi, x);
    var p := Origins(chunks, hi)[x];
    if p < o {
      LengthMonotone(chunks, p + 1, o);
    } else if o < p {
      LengthMonotone(chunks, o + 1, p);
    }
  }

  /**
   * The positions that a stretch `[x, y)` of the concatenation came from contribute the stretch
   * and the rest of the two chunks it cuts through.
   */
  lemma SpanOf<T>(chunks: seq<seq<T>>, hi: nat, x: nat, y: nat) returns (before: nat, after: nat)
    requires hi <= |chunks| && x < y <= |Flat(chunks, 0, hi)|
    ensures var s, e := Origins(chunks, hi)[x], Origins(chunks, hi)[y - 1] + 1;
            && s < e <= hi
            && before < |chunks[s]| && after < |chunks[e - 1]|
            && Flat(chunks, s, e) ==
               chunks[s][..before] + Flat(chunks, 0, hi)[x..y] + chunks[e - 1][|chunks[e - 1]| - after..]
  {
    OriginAt(chunks, hi, x);
    OriginAt(chunks, hi, y - 1);
    OriginsAscend(chunks, hi, x, y - 1);
    var s, e := Origins(chunks, hi)[x], Origins(chunks, hi)[y - 1] + 1;
    before := x - |Flat(chunks, 0, s)|;
    after := |Flat(chunks, 0, e)| - y;
    SpanSlices(chunks, hi, s, e, x, y);
  }

  lemma SpanSlices<T>(chunks: seq<seq<T>>, hi: nat, s: nat, e: nat, x: nat, y: nat)
    requires s < e <= hi <= |chunks| && x < y
    requires |Flat(chunks, 0, s)| <= x < |Flat(chunks, 0, s)| + |chunks[s]|
    requires |Flat(chunks, 0, e - 1)| < y <= |Flat(chunks, 0, e)|
    ensures y <= |Flat(chunks, 0, hi)|
    ensures Flat(chunks, s, e) ==
            chunks[s][..x - |Flat(chunks, 0, s)|] + Flat(chunks, 0, hi)[x..y]
            + chunks[e - 1][|chunks[e - 1]| - (|Flat(chunks, 0, e)| - y)..]
  {
    var left, mid, right := Flat(chunks, 0, s), Flat(chunks, s, e), Flat(chunks, e, hi);
    Split(chunks, 0, e, hi);
    Split(chunks, 0, s, e);
    Split(chunks, 0, s, e - 1);
    SpanEdges(chunks, s, e, x - |left|, y - |left|);
    Stretch(left, mid, right, x - |left|, y - |left|);
  }

  /** Cutting inside the first chunk and inside the last. */
  lemma SpanEdges<T>(chunks: seq<seq<T>>, s: nat, e: nat, i: nat, j: nat)
    requires s < e <= |chunks|
    requires i <= |chunks[s]|
    requires |Flat(chunks, s, e - 1)| <= j <= |Flat(chunks, s, e)|
    ensures i <= |Flat(chunks, s, e)| <= j + |chunks[e - 1]|
    ensures Flat(chunks, s, e)[..i] == chunks[s][..i]
    ensures Flat(chunks, s, e)[j..] == chunks[e - 1][|chunks[e - 1]| - (|Flat(chunks, s, e)| - j)..]
  {
    Split(chunks, s, s + 1, e);
    assert Flat(chunks, s, s + 1) == Flat(chunks, s, s) + chunks[s];
    Prefix(chunks[s], Flat(chunks, s + 1, e), i);
    Suffix(Flat(chunks, s, e - 1), chunks[e - 1], j);
  }

  lemma Stretch<T>(left: seq<T>, mid: seq<T>, right: seq<T>, i: nat, j: nat)
    requires i <= j <= |mid|
    ensures mid == mid[..i] + (left + mid + right)[|left| + i..|left| + j] + mid[j..]
  {
    assert (left + mid + right)[|left| + i..|left| + j] == mid[i..j];
  }

  lemma Prefix<T>(s: seq<T>, t: seq<T>, i: nat)
    requires i <= |s|
    ensures (s + t)[..i] == s[..i]
  {
  }

  lemma Suffix<T>(s: seq<T>, t: seq<T>, j: nat)
    requires |s| <= j <= |s| + |t|
    ensures (s + t)[j..] == t[j - |s|..]
  {
  }

  /** Two families that agree from `lo` on concatenate to the same elements. */
  lemma SameSlice<T>(inner: seq<seq<T>>, outer: seq<seq<T>>, a: nat, lo: nat, hi: nat)
    requires lo <= hi <= |inner| && a + |inner| <= |outer|
    requires inner[lo..] == outer[a + lo..a + |inner|]
    ensures Flat(inner, lo, hi) == Flat(outer, a + lo, a + hi)
  {
    assert inner[lo..hi] == inner[lo..][..hi - lo];
    assert outer[a + lo..a + hi] == outer[a + lo..a + |inner|][..hi - lo];
    Same(inner, lo, outer, a + lo, hi - lo);
  }
}

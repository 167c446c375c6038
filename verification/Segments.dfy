/**
 * Cutting a text at every span boundary and marking each piece (web/lib/segments.ts).
 * Spans are arbitrary integers: empty, reversed and out-of-range ones are all accepted.
 */
module Segments {
  import opened Typography
  import opened Positions

  datatype Span = Span(start: int, end: int)

  datatype Segment = Segment(text: Text, marks: seq<nat>)

  function Clamp(index: int, length: nat): (r: nat)
    ensures r <= length
  {
    if index < 0 then 0 else if index > length then length else index
  }

  predicate Empty(span: Span) {
    span.end <= span.start
  }

  /** The span shows on the character at position `p`. */
  predicate Covers(span: Span, p: int) {
    span.start <= p < span.end
  }

  // ---------------------------------------------------------------------------
  // Boundaries and cuts
  // ---------------------------------------------------------------------------

  function Boundaries(length: nat, spans: seq<Span>): (r: set<nat>)
    ensures 0 in r && length in r
    ensures forall b :: b in r ==> b <= length
    ensures forall b :: b in r <==> b == 0 || b == length || IsEdge(length, spans, b)
  {
    if spans == [] then {0, length}
    else
      var last := spans[|spans| - 1];
      var earlier := Boundaries(length, spans[..|spans| - 1]);
      EdgeOfLonger(length, spans);
      if Empty(last) then earlier else earlier + {Clamp(last.start, length), Clamp(last.end, length)}
  }

  /** A clamped end of some non-empty span. */
  predicate IsEdge(length: nat, spans: seq<Span>, b: nat) {
    exists j :: 0 <= j < |spans| && EdgeOf(length, spans[j], b)
  }

  predicate EdgeOf(length: nat, span: Span, b: nat) {
    !Empty(span) && (b == Clamp(span.start, length) || b == Clamp(span.end, length))
  }

  lemma EdgeOfLonger(length: nat, spans: seq<Span>)
    requires spans != []
    ensures forall b :: IsEdge(length, spans, b) <==>
              IsEdge(length, spans[..|spans| - 1], b) || EdgeOf(length, spans[|spans| - 1], b)
  {
    var n := |spans| - 1;
    forall b
      ensures IsEdge(length, spans, b) <==> IsEdge(length, spans[..n], b) || EdgeOf(length, spans[n], b)
    {
      if IsEdge(length, spans[..n], b) {
        var j :| 0 <= j < n && EdgeOf(length, spans[..n][j], b);
        assert EdgeOf(length, spans[j], b);
      }
      if IsEdge(length, spans, b) && !EdgeOf(length, spans[n], b) {
        var j :| 0 <= j < |spans| && EdgeOf(length, spans[j], b);
        assert EdgeOf(length, spans[..n][j], b);
      }
    }
  }

  /** The members of `points` below `bound`, sorted. */
  function Sorted(points: set<nat>, bound: nat): (cuts: seq<nat>)
    ensures Ascending(cuts)
    ensures forall c :: c in cuts <==> c in points && c < bound
    ensures forall i :: 0 <= i < |cuts| ==> cuts[i] < bound
  {
    if bound == 0 then []
    else Sorted(points, bound - 1) + if bound - 1 in points then [bound - 1] else []
  }

  function Cuts(length: nat, spans: seq<Span>): seq<nat> {
    Sorted(Boundaries(length, spans), length + 1)
  }

  /** A list of cuts that divides a text of this length into non-empty pieces. */
  ghost predicate Divides(cuts: seq<nat>, length: nat) {
    && cuts != [] && Ascending(cuts)
    && cuts[0] == 0 && cuts[|cuts| - 1] == length
  }

  lemma InOrder(cuts: seq<nat>, length: nat, i: nat)
    requires Divides(cuts, length) && i + 1 < |cuts|
    ensures cuts[i] < cuts[i + 1] <= length
  {
    assert cuts[i + 1] <= cuts[|cuts| - 1];
  }

  lemma CutsDivide(length: nat, spans: seq<Span>)
    ensures Divides(Cuts(length, spans), length)
  {
    var cuts := Cuts(length, spans);
    assert 0 in cuts && length in cuts;
    var i :| 0 <= i < |cuts| && cuts[i] == 0;
    var j :| 0 <= j < |cuts| && cuts[j] == length;
    assert cuts[0] <= cuts[i] && cuts[j] <= cuts[|cuts| - 1];
  }

  /** The cuts divide the text and include both clamped ends of every non-empty span. */
  ghost predicate Respects(cuts: seq<nat>, length: nat, spans: seq<Span>) {
    && Divides(cuts, length)
    && forall j :: 0 <= j < |spans| && !Empty(spans[j]) ==>
         Clamp(spans[j].start, length) in cuts && Clamp(spans[j].end, length) in cuts
  }

  lemma CutsRespect(length: nat, spans: seq<Span>)
    ensures Respects(Cuts(length, spans), length, spans)
  {
    CutsDivide(length, spans);
    forall j | 0 <= j < |spans| && !Empty(spans[j])
      ensures Clamp(spans[j].start, length) in Cuts(length, spans)
      ensures Clamp(spans[j].end, length) in Cuts(length, spans)
    {
      assert EdgeOf(length, spans[j], Clamp(spans[j].start, length));
      assert EdgeOf(length, spans[j], Clamp(spans[j].end, length));
    }
  }

  // ---------------------------------------------------------------------------
  // Pieces
  // ---------------------------------------------------------------------------

  /** The code's test: the span reaches from the left edge of the piece to its right edge. */
  predicate Spans(span: Span, from: int, to: int) {
    span.start <= from && span.end >= to && span.end > span.start
  }

  function Marks(spans: seq<Span>, from: int, to: int): (marks: seq<nat>)
    ensures Ascending(marks)
    ensures forall i :: 0 <= i < |marks| ==> marks[i] < |spans|
    ensures forall j: nat :: j in marks <==> j < |spans| && Spans(spans[j], from, to)
  {
    if spans == [] then []
    else
      var last := |spans| - 1;
      Marks(spans[..last], from, to) + if Spans(spans[last], from, to) then [last] else []
  }

  function Piece(text: Text, spans: seq<Span>, from: nat, to: nat): Segment
    requires from <= to <= |text|
  {
    Segment(text[from..to], Marks(spans, from, to))
  }

  /** The pieces between consecutive cuts, up to cut number `n`. */
  function Pieces(text: Text, spans: seq<Span>, cuts: seq<nat>, n: nat): (pieces: seq<Segment>)
    requires Divides(cuts, |text|) && n < |cuts|
    ensures |pieces| == n
  {
    if n == 0 then []
    else
      InOrder(cuts, |text|, n - 1);
      Pieces(text, spans, cuts, n - 1) + [Piece(text, spans, cuts[n - 1], cuts[n])]
  }

  lemma {:induction false} PieceAt(text: Text, spans: seq<Span>, cuts: seq<nat>, n: nat, i: nat)
    requires Divides(cuts, |text|) && i < n < |cuts|
    ensures cuts[i] < cuts[i + 1] <= |text|
    ensures Pieces(text, spans, cuts, n)[i] == Piece(text, spans, cuts[i], cuts[i + 1])
  {
    assert cuts[i] < cuts[i + 1] <= cuts[|cuts| - 1];
    if i < n - 1 {
      PieceAt(text, spans, cuts, n - 1, i);
    }
  }

  function Segmentation(text: Text, spans: seq<Span>): seq<Segment> {
    CutsDivide(|text|, spans);
    Pieces(text, spans, Cuts(|text|, spans), |Cuts(|text|, spans)| - 1)
  }

  method Segmented(text: Text, spans: seq<Span>) returns (segments: seq<Segment>)
    ensures segments == Segmentation(text, spans)
  {
    var boundaries: set<nat> := {0, |text|};
    for i := 0 to |spans|
      invariant boundaries == Boundaries(|text|, spans[..i])
    {
      assert spans[..i + 1][..i] == spans[..i];
      var span := spans[i];
      if span.end <= span.start {
        continue;
      }
      boundaries := boundaries + {Clamp(span.start, |text|)};
      boundaries := boundaries + {Clamp(span.end, |text|)};
    }
    assert spans[..|spans|] == spans;

    var cuts := Sorted(boundaries, |text| + 1);
    CutsDivide(|text|, spans);
    segments := [];
    for index := 0 to |cuts| - 1
      invariant segments == Pieces(text, spans, cuts, index)
    {
      var from, to := cuts[index], cuts[index + 1];
      assert to <= cuts[|cuts| - 1];
      segments := segments + [Segment(text[from..to], Marks(spans, from, to))];
    }
  }

  // ---------------------------------------------------------------------------
  // What the pieces are
  // ---------------------------------------------------------------------------

  function Join(pieces: seq<Segment>): Text {
    if pieces == [] then [] else Join(pieces[..|pieces| - 1]) + pieces[|pieces| - 1].text
  }

  lemma {:induction false} JoinPieces(text: Text, spans: seq<Span>, cuts: seq<nat>, n: nat)
    requires Divides(cuts, |text|) && n < |cuts|
    ensures cuts[n] <= |text| && Join(Pieces(text, spans, cuts, n)) == text[..cuts[n]]
  {
    assert cuts[n] <= cuts[|cuts| - 1];
    if n > 0 {
      JoinPieces(text, spans, cuts, n - 1);
      assert cuts[n - 1] < cuts[n];
      JoinLast(Pieces(text, spans, cuts, n - 1), Piece(text, spans, cuts[n - 1], cuts[n]));
    }
  }

  lemma JoinLast(pieces: seq<Segment>, last: Segment)
    ensures Join(pieces + [last]) == Join(pieces) + last.text
  {
    assert (pieces + [last])[..|pieces|] == pieces;
  }

  /** No character is lost, added or moved, and no piece is empty. */
  lemma PiecesJoinToText(text: Text, spans: seq<Span>)
    ensures Join(Segmentation(text, spans)) == text
    ensures forall i :: 0 <= i < |Segmentation(text, spans)| ==> Segmentation(text, spans)[i].text != []
  {
    CutsDivide(|text|, spans);
    var cuts := Cuts(|text|, spans);
    JoinPieces(text, spans, cuts, |cuts| - 1);
    assert text[..|text|] == text;
    forall i | 0 <= i < |Segmentation(text, spans)|
      ensures Segmentation(text, spans)[i].text != []
    {
      PieceAt(text, spans, cuts, |cuts| - 1, i);
    }
  }

  /** No boundary lies strictly inside a piece. */
  lemma NoCutInside(cuts: seq<nat>, i: nat, b: nat)
    requires Ascending(cuts) && i + 1 < |cuts| && b in cuts
    ensures b <= cuts[i] || cuts[i + 1] <= b
  {
    var k :| 0 <= k < |cuts| && cuts[k] == b;
    assert k <= i ==> cuts[k] <= cuts[i];
    assert i + 1 <= k ==> cuts[i + 1] <= cuts[k];
  }

  /** Reaching across the piece is the same as covering any one of its characters. */
  lemma SpansIffCovers(cuts: seq<nat>, length: nat, spans: seq<Span>, i: nat, j: nat, p: int)
    requires Respects(cuts, length, spans)
    requires i + 1 < |cuts| && j < |spans| && cuts[i] <= p < cuts[i + 1]
    ensures Spans(spans[j], cuts[i], cuts[i + 1]) <==> Covers(spans[j], p)
  {
    assert cuts[i + 1] <= cuts[|cuts| - 1];
    if !Empty(spans[j]) {
      NoCutInside(cuts, i, Clamp(spans[j].start, length));
      NoCutInside(cuts, i, Clamp(spans[j].end, length));
    }
  }

  /** The span indices that cover a character. */
  ghost predicate MarksCover(marks: seq<nat>, spans: seq<Span>, p: int) {
    Ascending(marks) && forall j: nat :: j in marks <==> j < |spans| && Covers(spans[j], p)
  }

  /** The marks of a piece are, in ascending order, exactly the spans covering each of its characters. */
  lemma MarksAreCoverage(text: Text, spans: seq<Span>, i: nat, p: int)
    requires i + 1 < |Cuts(|text|, spans)|
    requires Cuts(|text|, spans)[i] <= p < Cuts(|text|, spans)[i + 1]
    ensures i < |Segmentation(text, spans)|
    ensures MarksCover(Segmentation(text, spans)[i].marks, spans, p)
  {
    var cuts := Cuts(|text|, spans);
    CutsRespect(|text|, spans);
    PieceMarks(text, spans, cuts, i, p);
  }

  lemma PieceMarks(text: Text, spans: seq<Span>, cuts: seq<nat>, i: nat, p: int)
    requires Respects(cuts, |text|, spans)
    requires i + 1 < |cuts| && cuts[i] <= p < cuts[i + 1]
    ensures MarksCover(Pieces(text, spans, cuts, |cuts| - 1)[i].marks, spans, p)
  {
    PieceAt(text, spans, cuts, |cuts| - 1, i);
    forall j: nat | j < |spans|
      ensures Spans(spans[j], cuts[i], cuts[i + 1]) <==> Covers(spans[j], p)
    {
      SpansIffCovers(cuts, |text|, spans, i, j, p);
    }
  }

  /** An inner boundary is where some span starts or stops showing. */
  lemma EdgeChangesCoverage(length: nat, spans: seq<Span>, c: nat) returns (j: nat)
    requires c in Cuts(length, spans) && 0 < c < length
    ensures j < |spans| && Covers(spans[j], c - 1) != Covers(spans[j], c)
  {
    assert IsEdge(length, spans, c);
    j :| 0 <= j < |spans| && EdgeOf(length, spans[j], c);
  }

  /** Neighbouring pieces never carry the same marks, so no cut is superfluous. */
  lemma NeighboursDiffer(text: Text, spans: seq<Span>, i: nat)
    requires i + 1 < |Segmentation(text, spans)|
    ensures Segmentation(text, spans)[i].marks != Segmentation(text, spans)[i + 1].marks
  {
    CutsDivide(|text|, spans);
    var cuts := Cuts(|text|, spans);
    var c := cuts[i + 1];
    assert cuts[0] <= cuts[i] < c < cuts[i + 2] <= cuts[|cuts| - 1];
    var j := EdgeChangesCoverage(|text|, spans, c);
    MarksAreCoverage(text, spans, i, c - 1);
    MarksAreCoverage(text, spans, i + 1, c);
    assert j in Segmentation(text, spans)[i].marks <==> Covers(spans[j], c - 1);
    assert j in Segmentation(text, spans)[i + 1].marks <==> Covers(spans[j], c);
  }

  /** Every character of a piece is covered by the same spans. */
  ghost predicate Uniform(spans: seq<Span>, cuts: seq<nat>) {
    forall i, p, q, j :: 0 <= i < |cuts| - 1 && 0 <= j < |spans| && InPiece(cuts, i, p) && InPiece(cuts, i, q) ==>
                           (Covers(spans[j], p) <==> Covers(spans[j], q))
  }

  predicate InPiece(cuts: seq<nat>, i: nat, p: int)
    requires i < |cuts| - 1
  {
    cuts[i] <= p < cuts[i + 1]
  }

  lemma CutNeeded(length: nat, spans: seq<Span>, other: seq<nat>, c: nat)
    requires Divides(other, length) && Uniform(spans, other)
    requires c in Cuts(length, spans) && 0 < c < length
    ensures c in other
  {
    var j := EdgeChangesCoverage(length, spans, c);
    var i := PieceOf(other, length, c);
    assert InPiece(other, i, c);
    assert !InPiece(other, i, c - 1);
    assert other[i] == c;
  }

  /** Coarsest: any division of the text with uniform pieces has at least these cuts, and these are uniform. */
  lemma SegmentationIsCoarsest(length: nat, spans: seq<Span>, other: seq<nat>)
    requires Divides(other, length) && Uniform(spans, other)
    ensures forall c :: c in Cuts(length, spans) ==> c in other
    ensures Uniform(spans, Cuts(length, spans))
  {
    forall c | c in Cuts(length, spans)
      ensures c in other
    {
      assert other[0] == 0 && other[|other| - 1] == length;
      if 0 < c < length {
        CutNeeded(length, spans, other, c);
      }
    }
    CutsRespect(length, spans);
    RespectfulIsUniform(Cuts(length, spans), length, spans);
  }

  lemma RespectfulIsUniform(cuts: seq<nat>, length: nat, spans: seq<Span>)
    requires Respects(cuts, length, spans)
    ensures Uniform(spans, cuts)
  {
    forall i, p, q, j | 0 <= i < |cuts| - 1 && 0 <= j < |spans| && InPiece(cuts, i, p) && InPiece(cuts, i, q)
      ensures Covers(spans[j], p) <==> Covers(spans[j], q)
    {
      SpansIffCovers(cuts, length, spans, i, j, p);
      SpansIffCovers(cuts, length, spans, i, j, q);
    }
  }

  lemma PieceOf(cuts: seq<nat>, length: nat, c: nat) returns (i: nat)
    requires Divides(cuts, length) && c < length
    ensures i + 1 < |cuts| && cuts[i] <= c < cuts[i + 1]
  {
    i := 0;
    while cuts[i + 1] <= c
      invariant i + 1 < |cuts| && cuts[i] <= c
      decreases |cuts| - i
    {
      i := i + 1;
    }
  }

  // ---------------------------------------------------------------------------
  // What a reader sees marked with one number
  // ---------------------------------------------------------------------------

  /** The text of the pieces that carry mark `j`, joined. */
  function Marked(pieces: seq<Segment>, j: nat): Text {
    if pieces == [] then []
    else
      var last := pieces[|pieces| - 1];
      Marked(pieces[..|pieces| - 1], j) + if j in last.marks then last.text else []
  }

  lemma MarkedLast(pieces: seq<Segment>, last: Segment, j: nat)
    ensures Marked(pieces + [last], j) == Marked(pieces, j) + if j in last.marks then last.text else []
  {
    assert (pieces + [last])[..|pieces|] == pieces;
  }

  function Highlight(text: Text, span: Span, upTo: nat): Text
    requires upTo <= |text| && !Empty(span)
  {
    var lo, hi := Clamp(span.start, |text|), Clamp(span.end, |text|);
    if upTo <= lo then [] else if upTo <= hi then text[lo..upTo] else text[lo..hi]
  }

  lemma NoEndInside(cuts: seq<nat>, length: nat, spans: seq<Span>, i: nat, j: nat)
    requires Respects(cuts, length, spans) && i + 1 < |cuts|
    requires j < |spans| && !Empty(spans[j])
    ensures cuts[i] < cuts[i + 1] <= length
    ensures var lo, hi := Clamp(spans[j].start, length), Clamp(spans[j].end, length);
            (lo <= cuts[i] || cuts[i + 1] <= lo) && (hi <= cuts[i] || cuts[i + 1] <= hi)
  {
    assert cuts[i + 1] <= cuts[|cuts| - 1];
    NoCutInside(cuts, i, Clamp(spans[j].start, length));
    NoCutInside(cuts, i, Clamp(spans[j].end, length));
  }

  lemma OnePieceMore(text: Text, spans: seq<Span>, cuts: seq<nat>, n: nat)
    requires Divides(cuts, |text|) && n + 1 < |cuts|
    ensures cuts[n] < cuts[n + 1] <= |text|
    ensures Pieces(text, spans, cuts, n + 1) ==
            Pieces(text, spans, cuts, n) + [Piece(text, spans, cuts[n], cuts[n + 1])]
  {
    InOrder(cuts, |text|, n);
  }

  lemma {:induction false} MarkedSoFar(text: Text, spans: seq<Span>, cuts: seq<nat>, j: nat, n: nat)
    requires Respects(cuts, |text|, spans) && n < |cuts|
    requires j < |spans| && !Empty(spans[j])
    ensures cuts[n] <= |text|
    ensures Marked(Pieces(text, spans, cuts, n), j) == Highlight(text, spans[j], cuts[n])
  {
    if n > 0 {
      MarkedSoFar(text, spans, cuts, j, n - 1);
      NoEndInside(cuts, |text|, spans, n - 1, j);
      OnePieceMore(text, spans, cuts, n - 1);
      MarkedGrows(text, spans, Pieces(text, spans, cuts, n - 1), Pieces(text, spans, cuts, n), j, cuts[n - 1], cuts[n]);
    }
  }

  lemma MarkedGrows(
    text: Text, spans: seq<Span>, pieces: seq<Segment>, longer: seq<Segment>, j: nat, from: nat, to: nat
  )
    requires from < to <= |text| && j < |spans| && !Empty(spans[j])
    requires longer == pieces + [Piece(text, spans, from, to)]
    requires var lo, hi := Clamp(spans[j].start, |text|), Clamp(spans[j].end, |text|);
             (lo <= from || to <= lo) && (hi <= from || to <= hi)
    requires Marked(pieces, j) == Highlight(text, spans[j], from)
    ensures Marked(longer, j) == Highlight(text, spans[j], to)
  {
    MarkedLast(pieces, Piece(text, spans, from, to), j);
    HighlightGrows(text, spans[j], from, to);
  }

  lemma HighlightGrows(text: Text, span: Span, from: nat, to: nat)
    requires from < to <= |text| && !Empty(span)
    requires var lo, hi := Clamp(span.start, |text|), Clamp(span.end, |text|);
             (lo <= from || to <= lo) && (hi <= from || to <= hi)
    ensures Highlight(text, span, to) ==
            Highlight(text, span, from) + if Spans(span, from, to) then text[from..to] else []
  {
  }

  /** Joining what is marked `j` gives the slice the span names, clamped to the text; an empty span marks nothing. */
  lemma MarkedIsSlice(text: Text, spans: seq<Span>, j: nat)
    requires j < |spans|
    ensures Marked(Segmentation(text, spans), j) ==
            if Empty(spans[j]) then []
            else text[Clamp(spans[j].start, |text|)..Clamp(spans[j].end, |text|)]
  {
    CutsRespect(|text|, spans);
    MarkedAlong(text, spans, Cuts(|text|, spans), j, |Cuts(|text|, spans)| - 1);
  }

  lemma HighlightAll(text: Text, span: Span)
    requires !Empty(span)
    ensures Highlight(text, span, |text|) == text[Clamp(span.start, |text|)..Clamp(span.end, |text|)]
  {
  }

  lemma MarkedAlong(text: Text, spans: seq<Span>, cuts: seq<nat>, j: nat, n: nat)
    requires j < |spans| && Respects(cuts, |text|, spans) && n + 1 == |cuts|
    ensures Marked(Pieces(text, spans, cuts, n), j) ==
            if Empty(spans[j]) then []
            else text[Clamp(spans[j].start, |text|)..Clamp(spans[j].end, |text|)]
  {
    if Empty(spans[j]) {
      NeverMarked(text, spans, cuts, j, n);
    } else {
      MarkedSoFar(text, spans, cuts, j, n);
      assert cuts[n] == |text|;
      HighlightAll(text, spans[j]);
    }
  }

  lemma {:induction false} NeverMarked(text: Text, spans: seq<Span>, cuts: seq<nat>, j: nat, n: nat)
    requires Divides(cuts, |text|) && n < |cuts|
    requires j < |spans| && Empty(spans[j])
    ensures Marked(Pieces(text, spans, cuts, n), j) == []
  {
    if n > 0 {
      NeverMarked(text, spans, cuts, j, n - 1);
      InOrder(cuts, |text|, n - 1);
      EmptyUnmarked(text, spans, Pieces(text, spans, cuts, n - 1), cuts[n - 1], cuts[n], j);
    }
  }

  lemma EmptyUnmarked(text: Text, spans: seq<Span>, pieces: seq<Segment>, from: nat, to: nat, j: nat)
    requires from <= to <= |text| && j < |spans| && Empty(spans[j]) && Marked(pieces, j) == []
    ensures Marked(pieces + [Piece(text, spans, from, to)], j) == []
  {
    MarkedLast(pieces, Piece(text, spans, from, to), j);
  }
}

/**
 * Locating a quote in its source (src/analyzer/validator.py).
 *
 * Folding is specified position by position: `Emit(rules, text, k)` says what source position `k`
 * contributes, looking no further than the character before it. The folded text is what the
 * positions up to the last non-space character contribute, so a slice of the source folds to
 * what its positions contribute inside the whole source.
 */
module Validator {
  import opened Wrappers
  import opened Typography
  import opened Chunks

  const FUZZY_THRESHOLD: real := 95.0

  datatype QuoteMatch = QuoteMatch(start: nat, end: nat, fuzzy: bool, score: real)

  // ---------------------------------------------------------------------------
  // Folding
  // ---------------------------------------------------------------------------

  /** A printed character contributes its folding; whitespace one space, but only after a printed character. */
  function Emit(rules: Rules, text: Text, k: nat): Text
    requires k < |text|
  {
    if !rules.isSpace(text[k]) then rules.produced(text[k])
    else if 0 < k && !rules.isSpace(text[k - 1]) then [SPACE]
    else []
  }

  function EmissionsTo(rules: Rules, text: Text, n: nat): (chunks: seq<Text>)
    requires n <= |text|
    ensures |chunks| == n
  {
    if n == 0 then [] else EmissionsTo(rules, text, n - 1) + [Emit(rules, text, n - 1)]
  }

  /** What each source position contributes. */
  function Emissions(rules: Rules, text: Text): (chunks: seq<Text>)
    ensures |chunks| == |text|
  {
    EmissionsTo(rules, text, |text|)
  }

  lemma {:induction false} EmissionToAt(rules: Rules, text: Text, n: nat, k: nat)
    requires Lawful(rules)
    requires k < n <= |text|
    ensures EmissionsTo(rules, text, n)[k] == Emit(rules, text, k)
  {
    if k < n - 1 {
      EmissionToAt(rules, text, n - 1, k);
    }
  }

  lemma EmissionAt(rules: Rules, text: Text, k: nat)
    requires Lawful(rules)
    requires k < |text|
    ensures Emissions(rules, text)[k] == Emit(rules, text, k)
  {
    EmissionToAt(rules, text, |text|, k);
  }

  /** One past the last non-space character before `from`; 0 when there is none. */
  function EndFrom(rules: Rules, text: Text, from: nat): (e: nat)
    requires from <= |text|
    ensures e <= from
    ensures e > 0 ==> !rules.isSpace(text[e - 1])
    ensures forall k :: e <= k < from ==> rules.isSpace(text[k])
  {
    if from == 0 || !rules.isSpace(text[from - 1]) then from else EndFrom(rules, text, from - 1)
  }

  function End(rules: Rules, text: Text): nat {
    EndFrom(rules, text, |text|)
  }

  function Fold(rules: Rules, text: Text): Text {
    Flat(Emissions(rules, text), 0, End(rules, text))
  }

  /** For each folded character, the source position that produced it. */
  function FoldOrigins(rules: Rules, text: Text): (r: seq<nat>)
    ensures |r| == |Fold(rules, text)|
  {
    Origins(Emissions(rules, text), End(rules, text))
  }

  /** A run of whitespace folds to a single space, and never a leading one. */
  lemma SpaceRun(rules: Rules, text: Text, lo: nat, hi: nat)
    requires Lawful(rules)
    requires lo < hi <= |text|
    requires forall k :: lo <= k < hi ==> rules.isSpace(text[k])
    requires lo == 0 || !rules.isSpace(text[lo - 1])
    ensures var chunks := Emissions(rules, text);
            && chunks[lo] == (if lo == 0 then [] else [SPACE])
            && forall k :: lo < k < hi ==> chunks[k] == []
  {
    forall k | lo <= k < hi
      ensures Emissions(rules, text)[k] == Emit(rules, text, k)
    {
      EmissionAt(rules, text, k);
    }
  }

  // ---------------------------------------------------------------------------
  // The folding loop
  // ---------------------------------------------------------------------------

  /** What the loop has built once it has read `index` characters. */
  ghost predicate Built(chunks: seq<Text>, index: nat, folded: Text, origins: seq<nat>)
    requires index <= |chunks|
  {
    folded == Flat(chunks, 0, index) && origins == Origins(chunks, index)
  }

  lemma {:induction false} BuiltSilently(chunks: seq<Text>, lo: nat, hi: nat, folded: Text, origins: seq<nat>)
    requires lo <= hi <= |chunks| && Built(chunks, lo, folded, origins)
    requires forall k :: lo <= k < hi ==> chunks[k] == []
    ensures Built(chunks, hi, folded, origins)
    decreases hi
  {
    if lo < hi {
      BuiltSilently(chunks, lo, hi - 1, folded, origins);
      assert chunks[hi - 1] == [];
    }
  }

  lemma FoldedSoFar(rules: Rules, text: Text, index: nat, folded: Text, origins: seq<nat>)
    requires Lawful(rules)
    requires index <= |text| && Built(Emissions(rules, text), index, folded, origins)
    requires index > 0 ==> !rules.isSpace(text[index - 1])
    ensures folded == [] <==> index == 0
    ensures folded != [] ==> !rules.isSpace(folded[|folded| - 1])
  {
    if index > 0 {
      EmissionAt(rules, text, index - 1);
      var last := Emissions(rules, text)[index - 1];
      assert last == rules.produced(text[index - 1]);
      assert folded[|folded| - 1] == last[|last| - 1];
    }
  }

  /** A whole run of whitespace read at once. */
  lemma BuiltSpaces(rules: Rules, text: Text, lo: nat, hi: nat, folded: Text, origins: seq<nat>)
    requires Lawful(rules)
    requires lo < hi <= |text| && Built(Emissions(rules, text), lo, folded, origins)
    requires forall k :: lo <= k < hi ==> rules.isSpace(text[k])
    requires lo == 0 || !rules.isSpace(text[lo - 1])
    ensures folded == [] ==> Built(Emissions(rules, text), hi, folded, origins)
    ensures folded != [] ==> Built(Emissions(rules, text), hi, folded + [SPACE], origins + [lo])
  {
    var chunks := Emissions(rules, text);
    FoldedSoFar(rules, text, lo, folded, origins);
    SpaceRun(rules, text, lo, hi);
    var space := chunks[lo];
    assert Built(chunks, lo + 1, folded + space, origins + Repeat(lo, |space|));
    BuiltSilently(chunks, lo + 1, hi, folded + space, origins + Repeat(lo, |space|));
    assert space == [] ==> folded + space == folded && origins + Repeat(lo, |space|) == origins;
    assert space == [SPACE] ==> Repeat(lo, |space|) == [lo];
  }

  /** Output and origin map grow together; the trailing space goes at the end. */
  method Normalise(rules: Rules, text: Text) returns (folded: Text, origins: seq<nat>)
    requires Lawful(rules)
    ensures folded == Fold(rules, text)
    ensures origins == FoldOrigins(rules, text)
  {
    folded, origins := [], [];
    var index := 0;
    ghost var chunks := Emissions(rules, text);
    while index < |text|
      invariant 0 <= index <= |text|
      invariant 0 < index < |text| && rules.isSpace(text[index - 1]) ==> !rules.isSpace(text[index])
      invariant Built(chunks, index, folded, origins)
    {
      if rules.isSpace(text[index]) {
        var runEnd := index;
        while runEnd < |text| && rules.isSpace(text[runEnd])
          invariant index <= runEnd <= |text|
          invariant forall k :: index <= k < runEnd ==> rules.isSpace(text[k])
        {
          runEnd := runEnd + 1;
        }
        BuiltSpaces(rules, text, index, runEnd, folded, origins);
        if folded != [] {
          folded := folded + [SPACE];
          origins := origins + [index];
        }
        index := runEnd;
      } else {
        folded, origins := AppendProduced(rules, text, index, folded, origins);
        index := index + 1;
      }
    }
    folded, origins := PopTrailing(rules, text, folded, origins);
  }

  method AppendProduced(rules: Rules, text: Text, index: nat, output: Text, from: seq<nat>)
    returns (folded: Text, origins: seq<nat>)
    requires Lawful(rules)
    requires index < |text| && !rules.isSpace(text[index])
    requires Built(Emissions(rules, text), index, output, from)
    ensures Built(Emissions(rules, text), index + 1, folded, origins)
  {
    folded, origins := output, from;
    var produced := rules.produced(text[index]);
    for i := 0 to |produced|
      invariant folded == output + produced[..i]
      invariant origins == from + Repeat(index, i)
    {
      folded := folded + [produced[i]];
      origins := origins + [index];
    }
    EmissionAt(rules, text, index);
  }

  /** The untrimmed output is the folded text, or the folded text and one space. */
  lemma Untrimmed(rules: Rules, text: Text, output: Text, from: seq<nat>)
    requires Lawful(rules)
    requires Built(Emissions(rules, text), |text|, output, from)
    ensures var n := |Fold(rules, text)|;
            && n <= |output| == |from|
            && output[..n] == Fold(rules, text) && from[..n] == FoldOrigins(rules, text)
            && (forall k :: n <= k < |output| ==> output[k] == SPACE)
            && (n > 0 ==> output[n - 1] != SPACE)
  {
    var e := End(rules, text);
    FoldedSoFar(rules, text, e, Fold(rules, text), FoldOrigins(rules, text));
    if e < |text| {
      BuiltSpaces(rules, text, e, |text|, Fold(rules, text), FoldOrigins(rules, text));
    }
  }

  method PopTrailing(rules: Rules, text: Text, output: Text, from: seq<nat>) returns (folded: Text, origins: seq<nat>)
    requires Lawful(rules)
    requires Built(Emissions(rules, text), |text|, output, from)
    ensures folded == Fold(rules, text)
    ensures origins == FoldOrigins(rules, text)
  {
    folded, origins := output, from;
    Untrimmed(rules, text, output, from);
    while folded != [] && folded[|folded| - 1] == SPACE
      invariant |Fold(rules, text)| <= |folded| == |origins| <= |output|
      invariant folded == output[..|folded|] && origins == from[..|folded|]
      decreases |folded|
    {
      folded := folded[..|folded| - 1];
      origins := origins[..|origins| - 1];
    }
    assert |folded| == |Fold(rules, text)|;
  }

  // ---------------------------------------------------------------------------
  // Locating
  // ---------------------------------------------------------------------------

  predicate OccursAt(hay: Text, needle: Text, i: nat) {
    i + |needle| <= |hay| && hay[i..i + |needle|] == needle
  }

  /** `str.find`: the least position of an occurrence, or -1. */
  function FindFrom(hay: Text, needle: Text, i: nat): (r: int)
    requires i <= |hay|
    ensures r == -1 || i <= r
    ensures r == -1 ==> forall k :: i <= k <= |hay| ==> !OccursAt(hay, needle, k)
    ensures r != -1 ==> OccursAt(hay, needle, r) && forall k :: i <= k < r ==> !OccursAt(hay, needle, k)
    decreases |hay| - i
  {
    if OccursAt(hay, needle, i) then i
    else if i == |hay| then -1
    else FindFrom(hay, needle, i + 1)
  }

  /** Where the fuzzy aligner placed the quote in the folded source. */
  datatype Alignment = Alignment(destStart: int, destEnd: int, score: real)

  type Aligner = (Text, Text) -> Option<Alignment>

  /** All that is assumed of the fuzzy aligner: its window is in bounds, its score above the cutoff. */
  ghost predicate Bounded(align: Aligner) {
    forall quote, source :: align(quote, source).Some? ==>
      var a := align(quote, source).value;
      0 <= a.destStart && a.destEnd <= |source| && FUZZY_THRESHOLD <= a.score <= 100.0
  }

  function ToSourceSpan(origins: seq<nat>, start: nat, end: nat): (nat, nat)
    requires start < end <= |origins|
  {
    (origins[start], origins[end - 1] + 1)
  }

  function LocateQuote(rules: Rules, quote: Text, source: Text, align: Aligner): (found: Option<QuoteMatch>)
    requires Bounded(align)
  {
    if !NonBlank(rules, quote) then None
    else LocateFolded(Fold(rules, quote), Fold(rules, source), FoldOrigins(rules, source), align)
  }

  /** The search in folded space: a verbatim occurrence, or else what the aligner finds. */
  function LocateFolded(foldedQuote: Text, foldedSource: Text, origins: seq<nat>, align: Aligner): Option<QuoteMatch>
    requires Bounded(align) && |origins| == |foldedSource|
  {
    if foldedQuote == [] || foldedSource == [] then None
    else
      var exact := FindFrom(foldedSource, foldedQuote, 0);
      if exact != -1 then
        var (start, end) := ToSourceSpan(origins, exact, exact + |foldedQuote|);
        Some(QuoteMatch(start, end, false, 100.0))
      else
        match align(foldedQuote, foldedSource)
        case None => None
        case Some(a) =>
          if a.destEnd <= a.destStart then None
          else
            var (start, end) := ToSourceSpan(origins, a.destStart, a.destEnd);
            Some(QuoteMatch(start, end, true, a.score))
  }

  ghost predicate FoundExactly(rules: Rules, quote: Text, source: Text, align: Aligner)
    requires Bounded(align)
  {
    var found := LocateQuote(rules, quote, source, align);
    found.Some? && !found.value.fuzzy
  }

  /** Every match, exact or fuzzy, is a non-empty slice of the source it was given. */
  lemma MatchInBounds(rules: Rules, quote: Text, source: Text, align: Aligner)
    requires Lawful(rules)
    requires Bounded(align)
    ensures var found := LocateQuote(rules, quote, source, align);
            found.Some? ==>
              && found.value.start < found.value.end <= |source|
              && FUZZY_THRESHOLD <= found.value.score
              && (!found.value.fuzzy ==> found.value.score == 100.0)
  {
    forall x: nat, y: nat | x <= y < |Fold(rules, source)|
      ensures FoldOrigins(rules, source)[x] <= FoldOrigins(rules, source)[y] < |source|
    {
      OriginsAscend(Emissions(rules, source), End(rules, source), x, y);
    }
  }

  // ---------------------------------------------------------------------------
  // Folding a slice
  // ---------------------------------------------------------------------------

  function FirstNonSpace(rules: Rules, text: Text, from: nat): (p: nat)
    requires from <= |text|
    ensures from <= p <= |text|
    ensures forall k :: from <= k < p ==> rules.isSpace(text[k])
    ensures p < |text| ==> !rules.isSpace(text[p])
    decreases |text| - from
  {
    if from == |text| || !rules.isSpace(text[from]) then from else FirstNonSpace(rules, text, from + 1)
  }

  lemma Trimmed(rules: Rules, text: Text)
    requires Lawful(rules)
    requires NonBlank(rules, text)
    ensures FirstNonSpace(rules, text, 0) < End(rules, text)
    ensures Fold(rules, text) == Flat(Emissions(rules, text), FirstNonSpace(rules, text, 0), End(rules, text))
  {
    var p, e := FirstNonSpace(rules, text, 0), End(rules, text);
    var k :| 0 <= k < |text| && !rules.isSpace(text[k]);
    assert p <= k < e;
    forall i | 0 <= i < p
      ensures Emissions(rules, text)[i] == []
    {
      EmissionAt(rules, text, i);
    }
    Silent(Emissions(rules, text), 0, p);
    Split(Emissions(rules, text), 0, p, e);
  }

  /** From a printed character on, a slice emits what its positions emit in the whole text. */
  lemma EmissionsOfSlice(rules: Rules, text: Text, slice: Text, a: nat, b: nat, lo: nat)
    requires Lawful(rules)
    requires a <= b <= |text| && slice == text[a..b]
    requires lo < |slice| && !rules.isSpace(slice[lo])
    ensures Emissions(rules, slice)[lo..] == Emissions(rules, text)[a + lo..b]
  {
    forall k | lo <= k < |slice|
      ensures Emissions(rules, slice)[k] == Emissions(rules, text)[a + k]
    {
      EmissionAt(rules, slice, k);
      EmissionAt(rules, text, a + k);
    }
  }

  /**
   * Compositionality: a slice folds to what its positions contribute to the whole, from its
   * first non-space character to its last.
   */
  lemma FoldSlice(rules: Rules, text: Text, slice: Text, a: nat, b: nat)
    requires Lawful(rules)
    requires a <= b <= |text| && slice == text[a..b] && NonBlank(rules, slice)
    ensures FirstNonSpace(rules, slice, 0) < End(rules, slice)
    ensures Fold(rules, slice) ==
            Flat(Emissions(rules, text), a + FirstNonSpace(rules, slice, 0), a + End(rules, slice))
  {
    Trimmed(rules, slice);
    EmissionsOfSlice(rules, text, slice, a, b, FirstNonSpace(rules, slice, 0));
    SameSlice(Emissions(rules, slice), Emissions(rules, text), a, FirstNonSpace(rules, slice, 0), End(rules, slice));
  }

  lemma WithinEnd(rules: Rules, text: Text, k: nat)
    requires Lawful(rules)
    requires k < |text| && !rules.isSpace(text[k])
    ensures k < End(rules, text)
  {
  }

  lemma FoldNonSpaceSlice(rules: Rules, text: Text, slice: Text, a: nat, b: nat)
    requires Lawful(rules)
    requires a <= b <= |text| && slice == text[a..b]
    requires slice != [] && !rules.isSpace(slice[0]) && !rules.isSpace(slice[|slice| - 1])
    ensures Fold(rules, slice) == Flat(Emissions(rules, text), a, b)
  {
    FoldSlice(rules, text, slice, a, b);
    WithinEnd(rules, slice, |slice| - 1);
  }

  lemma FoldOpens(rules: Rules, text: Text)
    requires Lawful(rules)
    requires NonBlank(rules, text)
    ensures Fold(rules, text) != [] && !rules.isSpace(Fold(rules, text)[0])
  {
    var p, e, chunks := FirstNonSpace(rules, text, 0), End(rules, text), Emissions(rules, text);
    Trimmed(rules, text);
    EmissionAt(rules, text, p);
    Split(chunks, p, p + 1, e);
    assert Flat(chunks, p, p + 1) == Flat(chunks, p, p) + chunks[p];
    assert Fold(rules, text)[0] == chunks[p][0];
  }

  /** Blank texts fold to nothing and no other text does; a fold neither opens nor closes with a space. */
  lemma FoldEdges(rules: Rules, text: Text)
    requires Lawful(rules)
    ensures NonBlank(rules, text) <==> Fold(rules, text) != []
    ensures Fold(rules, text) != [] ==>
            !rules.isSpace(Fold(rules, text)[0]) && !rules.isSpace(Fold(rules, text)[|Fold(rules, text)| - 1])
  {
    if NonBlank(rules, text) {
      FoldOpens(rules, text);
      FoldedSoFar(rules, text, End(rules, text), Fold(rules, text), FoldOrigins(rules, text));
    }
  }

  // ---------------------------------------------------------------------------
  // Soundness and completeness of the exact stage
  // ---------------------------------------------------------------------------

  function Dots(n: nat): (r: Text)
    ensures |r| == n && forall i :: 0 <= i < n ==> r[i] == DOT
  {
    seq(n, _ => DOT)
  }

  ghost predicate CutBy(rules: Rules, slice: Text, folded: Text, before: nat, after: nat)
    requires slice != []
  {
    && before <= 2 && after <= 2
    && Fold(rules, slice) == Dots(before) + folded + Dots(after)
    && (before > 0 ==> slice[0] == ELLIPSIS)
    && (after > 0 ==> slice[|slice| - 1] == ELLIPSIS)
  }

  /**
   * The slice folds to this text, give or take the dots of an ellipsis character that the text
   * cuts through at either edge of the slice.
   */
  ghost predicate FoldsUpToCuts(rules: Rules, slice: Text, folded: Text) {
    slice != [] && exists before: nat, after: nat :: CutBy(rules, slice, folded, before, after)
  }

  ghost predicate FoldsUpToCutEllipses(rules: Rules, slice: Text, quote: Text) {
    FoldsUpToCuts(rules, slice, Fold(rules, quote))
  }

  /** A printed character of the fold comes from a printed character of the source. */
  lemma PrintedOrigin(rules: Rules, text: Text, x: nat)
    requires Lawful(rules)
    requires x < |Fold(rules, text)| && Fold(rules, text)[x] != SPACE
    ensures FoldOrigins(rules, text)[x] < |text|
    ensures !rules.isSpace(text[FoldOrigins(rules, text)[x]])
  {
    OriginAt(Emissions(rules, text), End(rules, text), x);
    EmissionAt(rules, text, FoldOrigins(rules, text)[x]);
  }

  /** What a match leaves of a character it cuts through is nothing, or one or two dots. */
  lemma Remainder(rules: Rules, c: CodePoint, k: nat)
    requires Lawful(rules)
    requires k < |rules.produced(c)|
    ensures k <= 2
    ensures k > 0 ==> c == ELLIPSIS
    ensures rules.produced(c)[..k] == Dots(k)
    ensures rules.produced(c)[|rules.produced(c)| - k..] == Dots(k)
  {
  }

  lemma OccurrenceIsPrinted(rules: Rules, hay: Text, needle: Text, x: nat, y: nat)
    requires Lawful(rules)
    requires needle != [] && !rules.isSpace(needle[0]) && !rules.isSpace(needle[|needle| - 1])
    requires OccursAt(hay, needle, x) && y == x + |needle|
    ensures hay[x..y] == needle && hay[x] != SPACE && hay[y - 1] != SPACE
  {
    assert hay[x] == hay[x..y][0] && hay[y - 1] == hay[x..y][|needle| - 1];
  }

  /** The source positions of a stretch of the fold that opens and closes on printed characters. */
  lemma StretchOfFold(rules: Rules, source: Text, x: nat, y: nat, s: nat, e: nat) returns (before: nat, after: nat)
    requires Lawful(rules)
    requires x < y <= |Fold(rules, source)| && Fold(rules, source)[x] != SPACE && Fold(rules, source)[y - 1] != SPACE
    requires s == FoldOrigins(rules, source)[x] && e == FoldOrigins(rules, source)[y - 1] + 1
    ensures s < e <= |source| && !rules.isSpace(source[s]) && !rules.isSpace(source[e - 1])
    ensures before < |rules.produced(source[s])| && after < |rules.produced(source[e - 1])|
    ensures Flat(Emissions(rules, source), s, e) ==
            rules.produced(source[s])[..before] + Fold(rules, source)[x..y]
            + rules.produced(source[e - 1])[|rules.produced(source[e - 1])| - after..]
  {
    PrintedOrigin(rules, source, x);
    PrintedOrigin(rules, source, y - 1);
    EmissionAt(rules, source, s);
    EmissionAt(rules, source, e - 1);
    before, after := SpanOf(Emissions(rules, source), End(rules, source), x, y);
  }

  lemma OccurrenceIsCut(rules: Rules, quote: Text, source: Text, slice: Text, x: nat, y: nat, s: nat, e: nat)
    requires Lawful(rules)
    requires Fold(rules, quote) != [] && OccursAt(Fold(rules, source), Fold(rules, quote), x)
    requires y == x + |Fold(rules, quote)|
    requires s == FoldOrigins(rules, source)[x] && e == FoldOrigins(rules, source)[y - 1] + 1
    requires s < e <= |source| && slice == source[s..e]
    ensures !rules.isSpace(slice[0]) && !rules.isSpace(slice[|slice| - 1])
    ensures FoldsUpToCutEllipses(rules, slice, quote)
  {
    FoldEdges(rules, quote);
    OccurrenceIsPrinted(rules, Fold(rules, source), Fold(rules, quote), x, y);
    StretchIsCut(rules, source, slice, x, y, s, e);
  }

  lemma StretchIsCut(rules: Rules, source: Text, slice: Text, x: nat, y: nat, s: nat, e: nat)
    requires Lawful(rules)
    requires x < y <= |Fold(rules, source)| && Fold(rules, source)[x] != SPACE && Fold(rules, source)[y - 1] != SPACE
    requires s == FoldOrigins(rules, source)[x] && e == FoldOrigins(rules, source)[y - 1] + 1
    requires s < e <= |source| && slice == source[s..e]
    ensures !rules.isSpace(slice[0]) && !rules.isSpace(slice[|slice| - 1])
    ensures FoldsUpToCuts(rules, slice, Fold(rules, source)[x..y])
  {
    var before, after := StretchOfFold(rules, source, x, y, s, e);
    assert slice[0] == source[s] && slice[|slice| - 1] == source[e - 1];
    SpanIsCut(rules, Fold(rules, source)[x..y], source, slice, s, e, before, after);
  }

  lemma SpanIsCut(rules: Rules, folded: Text, source: Text, slice: Text, s: nat, e: nat, before: nat, after: nat)
    requires Lawful(rules)
    requires s < e <= |source| && slice == source[s..e]
    requires !rules.isSpace(slice[0]) && !rules.isSpace(slice[|slice| - 1])
    requires before < |rules.produced(slice[0])| && after < |rules.produced(slice[|slice| - 1])|
    requires Flat(Emissions(rules, source), s, e) ==
             rules.produced(slice[0])[..before] + folded
             + rules.produced(slice[|slice| - 1])[|rules.produced(slice[|slice| - 1])| - after..]
    ensures FoldsUpToCuts(rules, slice, folded)
  {
    FoldNonSpaceSlice(rules, source, slice, s, e);
    Remainder(rules, slice[0], before);
    Remainder(rules, slice[|slice| - 1], after);
    assert CutBy(rules, slice, folded, before, after);
  }

  /**
   * Soundness: the slice an exact match returns folds to the folded quote, up to the rest of
   * an ellipsis character cut at either edge, and it starts and ends on printed characters.
   */
  lemma ExactMatchSound(rules: Rules, quote: Text, source: Text, align: Aligner)
    requires Lawful(rules)
    requires Bounded(align) && FoundExactly(rules, quote, source, align)
    ensures var m := LocateQuote(rules, quote, source, align).value;
            && m.start < m.end <= |source|
            && !rules.isSpace(source[m.start]) && !rules.isSpace(source[m.end - 1])
            && FoldsUpToCutEllipses(rules, source[m.start..m.end], quote)
  {
    var m := LocateQuote(rules, quote, source, align).value;
    MatchInBounds(rules, quote, source, align);
    var x := FindFrom(Fold(rules, source), Fold(rules, quote), 0);
    OccurrenceIsCut(rules, quote, source, source[m.start..m.end], x, x + |Fold(rules, quote)|, m.start, m.end);
  }

  /** A slice that neither opens nor closes with an ellipsis character is not cut: the two folds agree. */
  lemma UncutFoldsEqually(rules: Rules, slice: Text, quote: Text)
    requires Lawful(rules)
    requires FoldsUpToCutEllipses(rules, slice, quote)
    requires slice[0] != ELLIPSIS && slice[|slice| - 1] != ELLIPSIS
    ensures Fold(rules, slice) == Fold(rules, quote)
  {
    var before: nat, after: nat :| CutBy(rules, slice, Fold(rules, quote), before, after);
    assert Dots(0) + Fold(rules, quote) + Dots(0) == Fold(rules, quote);
  }

  /** A slice's fold occurs in the source's fold, where its first printed character's output starts. */
  lemma SliceOccurs(rules: Rules, source: Text, slice: Text, a: nat, b: nat) returns (at: nat, p: nat)
    requires Lawful(rules)
    requires a <= b <= |source| && slice == source[a..b] && NonBlank(rules, slice)
    ensures p == a + FirstNonSpace(rules, slice, 0) && p < b && p < End(rules, source)
    ensures at == |Flat(Emissions(rules, source), 0, p)|
    ensures OccursAt(Fold(rules, source), Fold(rules, slice), at)
  {
    FoldSlice(rules, source, slice, a, b);
    p := a + FirstNonSpace(rules, slice, 0);
    var q := a + End(rules, slice);
    WithinEnd(rules, source, q - 1);
    var chunks := Emissions(rules, source);
    at := |Flat(chunks, 0, p)|;
    Split(chunks, 0, p, q);
    Split(chunks, 0, q, End(rules, source));
    assert Fold(rules, source) == Flat(chunks, 0, p) + Flat(chunks, p, q) + Flat(chunks, q, End(rules, source));
  }

  lemma OccurrenceIsFound(rules: Rules, quote: Text, source: Text, align: Aligner, x: nat)
    requires Lawful(rules)
    requires Bounded(align)
    requires Fold(rules, quote) != [] && OccursAt(Fold(rules, source), Fold(rules, quote), x)
    ensures FoundExactly(rules, quote, source, align)
    ensures LocateQuote(rules, quote, source, align).value.start <= FoldOrigins(rules, source)[x]
  {
    FoldEdges(rules, quote);
    var exact := FindFrom(Fold(rules, source), Fold(rules, quote), 0);
    OriginsAscend(Emissions(rules, source), End(rules, source), exact, x);
  }

  lemma OccursWithin(hay: Text, at: nat, left: Text, needle: Text, right: Text)
    requires OccursAt(hay, left + needle + right, at)
    ensures OccursAt(hay, needle, at + |left|)
  {
    var whole, i := left + needle + right, |left|;
    assert whole[i..i + |needle|] == needle;
    SubSlice(hay, at, at + |whole|, i, i + |needle|);
  }

  lemma SubSlice(text: Text, a: nat, b: nat, i: nat, j: nat)
    requires a <= b <= |text| && i <= j <= b - a
    ensures text[a..b][i..j] == text[a + i..a + j]
  {
    var left, right := text[a..b][i..j], text[a + i..a + j];
    assert |left| == |right|;
    forall k | 0 <= k < |left|
      ensures left[k] == right[k]
    {
      assert left[k] == text[a..b][i + k] == text[a + i + k];
    }
  }

  lemma CutQuoteOccurs(rules: Rules, quote: Text, source: Text, slice: Text, a: nat, b: nat) returns (x: nat)
    requires Lawful(rules)
    requires a <= b <= |source| && slice == source[a..b]
    requires NonBlank(rules, quote) && FoldsUpToCutEllipses(rules, slice, quote)
    ensures Fold(rules, quote) != [] && OccursAt(Fold(rules, source), Fold(rules, quote), x)
    ensures FoldOrigins(rules, source)[x] == a + FirstNonSpace(rules, slice, 0)
  {
    var before: nat, after: nat :| CutBy(rules, slice, Fold(rules, quote), before, after);
    FoldEdges(rules, quote);
    FoldEdges(rules, slice);
    x := InnerOccurrence(rules, Fold(rules, quote), source, slice, a, b, before, after);
  }

  lemma InnerOccurrence(rules: Rules, needle: Text, source: Text, slice: Text, a: nat, b: nat, before: nat, after: nat)
    returns (x: nat)
    requires Lawful(rules)
    requires a <= b <= |source| && slice == source[a..b] && NonBlank(rules, slice)
    requires needle != [] && Fold(rules, slice) == Dots(before) + needle + Dots(after)
    requires before <= 2 && (before > 0 ==> slice[0] == ELLIPSIS)
    ensures OccursAt(Fold(rules, source), needle, x)
    ensures FoldOrigins(rules, source)[x] == a + FirstNonSpace(rules, slice, 0)
  {
    var at, p := SliceOccurs(rules, source, slice, a, b);
    OccursWithin(Fold(rules, source), at, Dots(before), needle, Dots(after));
    x := at + before;
    BeforeFirst(rules, slice, p - a, before);
    assert slice[p - a] == source[p];
    OriginOfOutput(rules, source, p, before);
  }

  lemma OriginOfOutput(rules: Rules, source: Text, p: nat, i: nat)
    requires Lawful(rules)
    requires p < End(rules, source) && !rules.isSpace(source[p]) && i < |rules.produced(source[p])|
    ensures |Flat(Emissions(rules, source), 0, p)| + i < |Fold(rules, source)|
    ensures FoldOrigins(rules, source)[|Flat(Emissions(rules, source), 0, p)| + i] == p
  {
    EmissionAt(rules, source, p);
    ChunkAt(Emissions(rules, source), End(rules, source), p, i);
  }

  lemma BeforeFirst(rules: Rules, slice: Text, first: nat, before: nat)
    requires Lawful(rules)
    requires NonBlank(rules, slice) && first == FirstNonSpace(rules, slice, 0)
    requires before <= 2 && (before > 0 ==> slice[0] == ELLIPSIS)
    ensures first < |slice| && before < |rules.produced(slice[first])|
  {
  }

  /**
   * Completeness: a quote that some slice of the source folds to, even up to cut ellipses, is
   * matched exactly, no later than the first printed character of that slice.
   */
  lemma SliceIsFound(rules: Rules, quote: Text, source: Text, align: Aligner, slice: Text, a: nat, b: nat)
    requires Lawful(rules)
    requires Bounded(align)
    requires a <= b <= |source| && slice == source[a..b]
    requires NonBlank(rules, quote) && FoldsUpToCutEllipses(rules, slice, quote)
    ensures FoundExactly(rules, quote, source, align)
    ensures LocateQuote(rules, quote, source, align).value.start <= a + FirstNonSpace(rules, slice, 0)
  {
    var x := CutQuoteOccurs(rules, quote, source, slice, a, b);
    OccurrenceIsFound(rules, quote, source, align, x);
  }

  /** In particular a quote copied from the source, blank ones aside, is always matched exactly. */
  lemma CopiedQuoteIsFound(rules: Rules, source: Text, align: Aligner, quote: Text, a: nat, b: nat)
    requires Lawful(rules)
    requires Bounded(align)
    requires a <= b <= |source| && quote == source[a..b] && NonBlank(rules, quote)
    ensures FoundExactly(rules, quote, source, align)
    ensures LocateQuote(rules, quote, source, align).value.start <= a + FirstNonSpace(rules, quote, 0)
  {
    assert Dots(0) + Fold(rules, quote) + Dots(0) == Fold(rules, quote);
    assert CutBy(rules, quote, Fold(rules, quote), 0, 0);
    SliceIsFound(rules, quote, source, align, quote, a, b);
  }

  ghost predicate SomeSliceFoldsTo(rules: Rules, source: Text, quote: Text) {
    exists a: nat, b: nat :: a <= b <= |source| && FoldsUpToCutEllipses(rules, source[a..b], quote)
  }

  /** The exact stage decides exactly this question about the source. */
  lemma ExactMatchIff(rules: Rules, quote: Text, source: Text, align: Aligner)
    requires Lawful(rules)
    requires Bounded(align)
    ensures FoundExactly(rules, quote, source, align) <==>
            NonBlank(rules, quote) && SomeSliceFoldsTo(rules, source, quote)
  {
    if FoundExactly(rules, quote, source, align) {
      ExactMatchSound(rules, quote, source, align);
    }
    if NonBlank(rules, quote) && SomeSliceFoldsTo(rules, source, quote) {
      var a: nat, b: nat :| a <= b <= |source| && FoldsUpToCutEllipses(rules, source[a..b], quote);
      SliceIsFound(rules, quote, source, align, source[a..b], a, b);
    }
  }

  // ---------------------------------------------------------------------------
  // Soundness of the fuzzy stage
  // ---------------------------------------------------------------------------

  /** What is left of a text without the whitespace around it. */
  function Strip(rules: Rules, text: Text): Text {
    var first := FirstNonSpace(rules, text, 0);
    if first < End(rules, text) then text[first..End(rules, text)] else []
  }

  lemma StripEdges(rules: Rules, text: Text)
    requires Lawful(rules)
    ensures Strip(rules, text) != [] <==> NonBlank(rules, text)
    ensures NonBlank(rules, text) ==>
              && FirstNonSpace(rules, text, 0) < End(rules, text)
              && !rules.isSpace(text[FirstNonSpace(rules, text, 0)]) && !rules.isSpace(text[End(rules, text) - 1])
  {
    if NonBlank(rules, text) {
      Trimmed(rules, text);
    }
  }

  /** Folding drops the whitespace around a text. */
  lemma StripFolds(rules: Rules, text: Text)
    requires Lawful(rules)
    ensures Fold(rules, Strip(rules, text)) == Fold(rules, text)
  {
    StripEdges(rules, text);
    if NonBlank(rules, text) {
      Trimmed(rules, text);
      FoldNonSpaceSlice(rules, text, Strip(rules, text), FirstNonSpace(rules, text, 0), End(rules, text));
    } else {
      FoldEdges(rules, text);
      FoldEdges(rules, []);
    }
  }

  /** A printed character among the positions a stretch of the fold came from shows in that stretch. */
  lemma PrintedShows(rules: Rules, source: Text, x: nat, y: nat, p: nat) returns (z: nat)
    requires Lawful(rules)
    requires x < y <= |Fold(rules, source)| && p < |source| && !rules.isSpace(source[p])
    requires FoldOrigins(rules, source)[x] <= p <= FoldOrigins(rules, source)[y - 1]
    ensures x <= z < y && FoldOrigins(rules, source)[z] == p && !rules.isSpace(Fold(rules, source)[z])
  {
    var chunks, end := Emissions(rules, source), End(rules, source);
    WithinEnd(rules, source, p);
    EmissionAt(rules, source, p);
    z := |Flat(chunks, 0, p)|;
    ChunkAt(chunks, end, p, 0);
    OriginAt(chunks, end, x);
    OriginAt(chunks, end, y - 1);
    if FoldOrigins(rules, source)[x] == p {
      z := x;
    } else if z < x {
      OriginsAscend(chunks, end, z, x);
    } else if y - 1 < z {
      OriginsAscend(chunks, end, y - 1, z);
    }
    OriginAt(chunks, end, z);
  }

  /** `slice` is the positions that `window`, a stretch of the folded source, came from. */
  ghost predicate CameFrom(rules: Rules, source: Text, slice: Text, window: Text, x: nat, y: nat, s: nat, e: nat) {
    && x < y <= |Fold(rules, source)| && window == Fold(rules, source)[x..y]
    && s < e <= |source| && slice == source[s..e]
    && s == FoldOrigins(rules, source)[x] && e == FoldOrigins(rules, source)[y - 1] + 1
  }

  lemma ShownIn(
    rules: Rules, source: Text, slice: Text, window: Text, x: nat, y: nat, s: nat, e: nat, k: nat
  ) returns (z: nat)
    requires Lawful(rules) && CameFrom(rules, source, slice, window, x, y, s, e)
    requires k < |slice| && !rules.isSpace(slice[k])
    ensures z < |window| && !rules.isSpace(window[z]) && FoldOrigins(rules, source)[x + z] == s + k
  {
    var at := PrintedShows(rules, source, x, y, s + k);
    z := at - x;
  }

  lemma PrintedIn(rules: Rules, source: Text, slice: Text, window: Text, x: nat, y: nat, s: nat, e: nat, z: nat)
    requires Lawful(rules) && CameFrom(rules, source, slice, window, x, y, s, e)
    requires z < |window| && !rules.isSpace(window[z])
    ensures s <= FoldOrigins(rules, source)[x + z] < e
    ensures !rules.isSpace(slice[FoldOrigins(rules, source)[x + z] - s])
  {
    PrintedOrigin(rules, source, x + z);
    OriginsAscend(Emissions(rules, source), End(rules, source), x, x + z);
    OriginsAscend(Emissions(rules, source), End(rules, source), x + z, y - 1);
  }

  /** Two printed characters of the stretch come from positions in the same order. */
  lemma OriginsInOrder(
    rules: Rules, source: Text, slice: Text, window: Text, x: nat, y: nat, s: nat, e: nat, i: nat, j: nat
  )
    requires Lawful(rules) && CameFrom(rules, source, slice, window, x, y, s, e)
    requires i <= j < |window|
    ensures FoldOrigins(rules, source)[x + i] <= FoldOrigins(rules, source)[x + j]
  {
    OriginsAscend(Emissions(rules, source), End(rules, source), x + i, x + j);
  }

  /** The first printed character of the slice is the one the window's came from. */
  lemma FirstAgrees(
    rules: Rules, source: Text, slice: Text, window: Text, x: nat, y: nat, s: nat, e: nat, p: nat, i: nat
  )
    requires Lawful(rules) && CameFrom(rules, source, slice, window, x, y, s, e)
    requires p < |slice| && !rules.isSpace(slice[p]) && forall k :: 0 <= k < p ==> rules.isSpace(slice[k])
    requires i < |window| && !rules.isSpace(window[i]) && forall k :: 0 <= k < i ==> rules.isSpace(window[k])
    ensures s + p == FoldOrigins(rules, source)[x + i]
  {
    PrintedIn(rules, source, slice, window, x, y, s, e, i);
    var z := ShownIn(rules, source, slice, window, x, y, s, e, p);
    OriginsInOrder(rules, source, slice, window, x, y, s, e, i, z);
  }

  lemma LastAgrees(
    rules: Rules, source: Text, slice: Text, window: Text, x: nat, y: nat, s: nat, e: nat, p: nat, i: nat
  )
    requires Lawful(rules) && CameFrom(rules, source, slice, window, x, y, s, e)
    requires p < |slice| && !rules.isSpace(slice[p]) && forall k :: p < k < |slice| ==> rules.isSpace(slice[k])
    requires i < |window| && !rules.isSpace(window[i]) && forall k :: i < k < |window| ==> rules.isSpace(window[k])
    ensures s + p == FoldOrigins(rules, source)[x + i]
  {
    PrintedIn(rules, source, slice, window, x, y, s, e, i);
    var z := ShownIn(rules, source, slice, window, x, y, s, e, p);
    OriginsInOrder(rules, source, slice, window, x, y, s, e, z, i);
  }

  lemma BlankTogether(rules: Rules, source: Text, slice: Text, window: Text, x: nat, y: nat, s: nat, e: nat)
    requires Lawful(rules) && CameFrom(rules, source, slice, window, x, y, s, e)
    ensures NonBlank(rules, slice) <==> NonBlank(rules, window)
  {
    if NonBlank(rules, slice) {
      var k :| 0 <= k < |slice| && !rules.isSpace(slice[k]);
      var z := ShownIn(rules, source, slice, window, x, y, s, e, k);
    }
    if NonBlank(rules, window) {
      var z :| 0 <= z < |window| && !rules.isSpace(window[z]);
      PrintedIn(rules, source, slice, window, x, y, s, e, z);
    }
  }

  /**
   * What the fuzzy stage returns: apart from whitespace at its edges, the slice folds to the
   * window the aligner chose in the folded source, up to cut ellipses.
   */
  lemma FuzzyMatchSound(rules: Rules, quote: Text, source: Text, align: Aligner)
    requires Lawful(rules)
    requires Bounded(align)
    requires LocateQuote(rules, quote, source, align).Some? && LocateQuote(rules, quote, source, align).value.fuzzy
    ensures var m, a := LocateQuote(rules, quote, source, align).value, align(Fold(rules, quote), Fold(rules, source));
            && a.Some? && 0 <= a.value.destStart < a.value.destEnd <= |Fold(rules, source)|
            && m.start < m.end <= |source|
            && WindowOf(rules, source[m.start..m.end], Fold(rules, source)[a.value.destStart..a.value.destEnd])
  {
    var a := align(Fold(rules, quote), Fold(rules, source)).value;
    MatchInBounds(rules, quote, source, align);
    var m := LocateQuote(rules, quote, source, align).value;
    SpanOfWindow(
      rules, source, source[m.start..m.end], Fold(rules, source)[a.destStart..a.destEnd],
      a.destStart, a.destEnd, m.start, m.end);
  }

  /** The slice folds to the window, apart from edge whitespace and cut ellipses; to nothing if the window is blank. */
  ghost predicate WindowOf(rules: Rules, slice: Text, window: Text) {
    if NonBlank(rules, window)
    then
      && Fold(rules, Strip(rules, slice)) == Fold(rules, slice)
      && FoldsUpToCuts(rules, Strip(rules, slice), Strip(rules, window))
    else Fold(rules, slice) == []
  }

  lemma SpanOfWindow(rules: Rules, source: Text, slice: Text, window: Text, x: nat, y: nat, s: nat, e: nat)
    requires Lawful(rules) && CameFrom(rules, source, slice, window, x, y, s, e)
    ensures WindowOf(rules, slice, window)
  {
    BlankTogether(rules, source, slice, window, x, y, s, e);
    if NonBlank(rules, window) {
      StripFolds(rules, slice);
      PrintedIsCut(rules, source, slice, window, x, y, s, e);
    } else {
      FoldEdges(rules, slice);
    }
  }

  lemma PrintedIsCut(rules: Rules, source: Text, slice: Text, window: Text, x: nat, y: nat, s: nat, e: nat)
    requires Lawful(rules) && CameFrom(rules, source, slice, window, x, y, s, e)
    requires NonBlank(rules, slice) && NonBlank(rules, window)
    ensures FoldsUpToCuts(rules, Strip(rules, slice), Strip(rules, window))
  {
    var p, q := StripBounds(rules, slice);
    var i, j := StripBounds(rules, window);
    EdgesAgree(rules, source, slice, window, x, y, s, e, i, j, p, q);
    StrippedIsCut(rules, source, slice, window, x, y, s, e, i, j, p, q);
  }

  /** Between `i` and `j` lies all that is printed, from its first character to its last. */
  ghost predicate PrintedWithin(rules: Rules, text: Text, i: nat, j: nat) {
    && i < j <= |text| && !rules.isSpace(text[i]) && !rules.isSpace(text[j - 1])
    && (forall k :: 0 <= k < i ==> rules.isSpace(text[k]))
    && (forall k :: j <= k < |text| ==> rules.isSpace(text[k]))
  }

  lemma StripBounds(rules: Rules, text: Text) returns (i: nat, j: nat)
    requires Lawful(rules) && NonBlank(rules, text)
    ensures PrintedWithin(rules, text, i, j) && Strip(rules, text) == text[i..j]
  {
    StripEdges(rules, text);
    i, j := FirstNonSpace(rules, text, 0), End(rules, text);
  }

  lemma EdgesAgree(
    rules: Rules, source: Text, slice: Text, window: Text, x: nat, y: nat, s: nat, e: nat,
    i: nat, j: nat, p: nat, q: nat
  )
    requires Lawful(rules) && CameFrom(rules, source, slice, window, x, y, s, e)
    requires PrintedWithin(rules, slice, p, q) && PrintedWithin(rules, window, i, j)
    ensures s + p == FoldOrigins(rules, source)[x + i] && s + q == FoldOrigins(rules, source)[x + j - 1] + 1
  {
    FirstAgrees(rules, source, slice, window, x, y, s, e, p, i);
    LastAgrees(rules, source, slice, window, x, y, s, e, q - 1, j - 1);
  }

  lemma StrippedIsCut(
    rules: Rules, source: Text, slice: Text, window: Text, x: nat, y: nat, s: nat, e: nat,
    i: nat, j: nat, p: nat, q: nat
  )
    requires Lawful(rules) && CameFrom(rules, source, slice, window, x, y, s, e)
    requires i < j <= |window| && !rules.isSpace(window[i]) && !rules.isSpace(window[j - 1])
    requires p < q <= |slice|
    requires s + p == FoldOrigins(rules, source)[x + i] && s + q == FoldOrigins(rules, source)[x + j - 1] + 1
    ensures FoldsUpToCuts(rules, slice[p..q], window[i..j])
  {
    SubSlice(source, s, e, p, q);
    SubSlice(Fold(rules, source), x, y, i, j);
    assert window[i] == Fold(rules, source)[x + i] && window[j - 1] == Fold(rules, source)[x + j - 1];
    StretchIsCut(rules, source, slice[p..q], x + i, x + j, s + p, s + q);
  }

  // ---------------------------------------------------------------------------
  // Folding, by words
  // ---------------------------------------------------------------------------

  predicate EndsInSpace(rules: Rules, text: Text) {
    text != [] && rules.isSpace(text[|text| - 1])
  }

  /** `text.split()`: the maximal runs of printed characters. */
  function Words(rules: Rules, text: Text): (words: seq<Text>)
    ensures text != [] && !EndsInSpace(rules, text) ==> words != []
  {
    if text == [] then []
    else
      var init, c := text[..|text| - 1], text[|text| - 1];
      var words := Words(rules, init);
      if rules.isSpace(c) then words
      else if init == [] || EndsInSpace(rules, init) then words + [[c]]
      else words[..|words| - 1] + [words[|words| - 1] + [c]]
  }

  /** A word with each character tidied. */
  function Tidied(rules: Rules, word: Text): Text {
    if word == [] then [] else Tidied(rules, word[..|word| - 1]) + rules.produced(word[|word| - 1])
  }

  /** `" ".join(...)` of the tidied words. */
  function Joined(rules: Rules, words: seq<Text>): Text {
    if words == [] then []
    else if |words| == 1 then Tidied(rules, words[0])
    else Joined(rules, words[..|words| - 1]) + [SPACE] + Tidied(rules, words[|words| - 1])
  }

  lemma JoinedLonger(rules: Rules, words: seq<Text>, word: Text)
    ensures Joined(rules, words + [word]) ==
            if words == [] then Tidied(rules, word) else Joined(rules, words) + [SPACE] + Tidied(rules, word)
  {
    assert (words + [word])[..|words|] == words;
  }

  lemma TidiedLonger(rules: Rules, word: Text, c: CodePoint)
    ensures Tidied(rules, word + [c]) == Tidied(rules, word) + rules.produced(c)
  {
    assert (word + [c])[..|word|] == word;
  }

  /** A word grows at the end of the join. */
  lemma JoinedGrows(rules: Rules, words: seq<Text>, word: Text, c: CodePoint)
    ensures Joined(rules, words + [word + [c]]) == Joined(rules, words + [word]) + rules.produced(c)
  {
    JoinedLonger(rules, words, word);
    JoinedLonger(rules, words, word + [c]);
    TidiedLonger(rules, word, c);
  }

  /** The space that whitespace after a word leaves. */
  function Owed(rules: Rules, text: Text): Text {
    if EndsInSpace(rules, text) && Words(rules, text) != [] then [SPACE] else []
  }

  /** What the words of a text join to, with the space owed after them. */
  function JoinedSoFar(rules: Rules, text: Text): Text {
    Joined(rules, Words(rules, text)) + Owed(rules, text)
  }

  lemma {:induction false} WordsSoFar(rules: Rules, text: Text, n: nat)
    requires Lawful(rules) && n <= |text|
    ensures Flat(Emissions(rules, text), 0, n) == JoinedSoFar(rules, text[..n])
  {
    if n > 0 {
      WordsSoFar(rules, text, n - 1);
      EmissionAt(rules, text, n - 1);
      OneCharacter(rules, text, text[..n - 1], n - 1);
      assert text[..n] == text[..n - 1] + [text[n - 1]];
    }
  }

  lemma OneCharacter(rules: Rules, text: Text, init: Text, k: nat)
    requires k < |text| && init == text[..k]
    ensures JoinedSoFar(rules, init + [text[k]]) == JoinedSoFar(rules, init) + Emit(rules, text, k)
  {
    assert k > 0 ==> init[|init| - 1] == text[k - 1];
    if rules.isSpace(text[k]) {
      SpaceAfter(rules, init, text[k]);
    } else if init == [] || EndsInSpace(rules, init) {
      FirstOfWord(rules, init, text[k]);
    } else {
      MoreOfWord(rules, init, text[k]);
    }
  }

  lemma SpaceAfter(rules: Rules, init: Text, c: CodePoint)
    requires rules.isSpace(c)
    ensures JoinedSoFar(rules, init + [c]) ==
            JoinedSoFar(rules, init) + if init != [] && !EndsInSpace(rules, init) then [SPACE] else []
  {
    assert (init + [c])[..|init|] == init;
  }

  lemma FirstOfWord(rules: Rules, init: Text, c: CodePoint)
    requires !rules.isSpace(c) && (init == [] || EndsInSpace(rules, init))
    ensures JoinedSoFar(rules, init + [c]) == JoinedSoFar(rules, init) + rules.produced(c)
  {
    var words := Words(rules, init);
    assert (init + [c])[..|init|] == init;
    JoinedLonger(rules, words, [c]);
    assert [c][..0] == [];
    assert Tidied(rules, [c]) == rules.produced(c);
    assert Words(rules, init + [c]) == words + [[c]];
  }

  lemma MoreOfWord(rules: Rules, init: Text, c: CodePoint)
    requires !rules.isSpace(c) && init != [] && !EndsInSpace(rules, init)
    ensures JoinedSoFar(rules, init + [c]) == JoinedSoFar(rules, init) + rules.produced(c)
  {
    var words := Words(rules, init);
    assert (init + [c])[..|init|] == init;
    var last := |words| - 1;
    assert Words(rules, init + [c]) == words[..last] + [words[last] + [c]];
    assert words == words[..last] + [words[last]];
    JoinedGrows(rules, words[..last], words[last], c);
  }

  lemma {:induction false} SpacesAddNoWord(rules: Rules, text: Text, n: nat)
    requires n <= |text| && forall k :: n <= k < |text| ==> rules.isSpace(text[k])
    ensures Words(rules, text) == Words(rules, text[..n])
  {
    if n == |text| {
      assert text[..n] == text;
    } else {
      var init := text[..|text| - 1];
      SpacesAddNoWord(rules, init, n);
      assert init[..n] == text[..n];
    }
  }

  /** The folded text is the words of the text, each tidied, with single spaces between them. */
  lemma FoldIsWords(rules: Rules, text: Text)
    requires Lawful(rules)
    ensures Fold(rules, text) == Joined(rules, Words(rules, text))
  {
    WordsSoFar(rules, text, End(rules, text));
    SpacesAddNoWord(rules, text, End(rules, text));
  }

  // ---------------------------------------------------------------------------
  // Plain texts
  // ---------------------------------------------------------------------------

  /** Nothing to tidy: no character of the typography table, and plain spaces only, one by one, inside. */
  predicate IsPlain(text: Text) {
    forall k :: 0 <= k < |text| ==> PlainAt(text, k)
  }

  predicate PlainAt(text: Text, k: nat)
    requires k < |text|
  {
    && !IsTypographic(text[k])
    && (IsSpace(text[k]) ==>
          text[k] == SPACE && 0 < k < |text| - 1 && !IsSpace(text[k - 1]) && !IsSpace(text[k + 1]))
  }

  lemma PlainEmission(text: Text, k: nat)
    requires IsPlain(text) && k < |text|
    ensures Emissions(PYTHON_RULES, text)[k] == [text[k]]
  {
    PythonRulesLawful();
    EmissionAt(PYTHON_RULES, text, k);
    ProducedByClass(text[k]);
    assert PlainAt(text, k);
  }

  lemma {:induction false} PlainFlat(text: Text, n: nat)
    requires IsPlain(text) && n <= |text|
    ensures Flat(Emissions(PYTHON_RULES, text), 0, n) == text[..n]
    ensures |Origins(Emissions(PYTHON_RULES, text), n)| == n
    ensures forall i :: 0 <= i < n ==> Origins(Emissions(PYTHON_RULES, text), n)[i] == i
  {
    if n > 0 {
      PlainFlat(text, n - 1);
      PlainEmission(text, n - 1);
    }
  }

  /** Folding leaves a plain text as it is. */
  lemma PlainFoldsToItself(text: Text)
    requires IsPlain(text)
    ensures Fold(PYTHON_RULES, text) == text
    ensures forall i :: 0 <= i < |text| ==> FoldOrigins(PYTHON_RULES, text)[i] == i
    ensures text != [] ==> NonBlank(PYTHON_RULES, text)
  {
    if text != [] {
      assert PlainAt(text, |text| - 1);
      assert !PYTHON_RULES.isSpace(text[|text| - 1]);
    }
    assert End(PYTHON_RULES, text) == |text|;
    PlainFlat(text, |text|);
  }

  /**
   * Between plain texts the exact stage is substring search: it matches if and only if the quote
   * stands in the source, at its first occurrence, and what it returns is the quote.
   */
  lemma PlainQuoteIff(quote: Text, source: Text, align: Aligner)
    requires Bounded(align) && IsPlain(quote) && IsPlain(source) && quote != []
    ensures FoundExactly(PYTHON_RULES, quote, source, align) <==>
            exists i: nat, j: nat :: i <= j <= |source| && source[i..j] == quote
    ensures FoundExactly(PYTHON_RULES, quote, source, align) ==>
              var m := LocateQuote(PYTHON_RULES, quote, source, align).value;
              && m.start < m.end <= |source| && source[m.start..m.end] == quote
              && forall i: nat, j: nat :: i <= j <= |source| && source[i..j] == quote ==> m.start <= i
  {
    PlainFoldsToItself(quote);
    PlainFoldsToItself(source);
    var exact := FindFrom(source, quote, 0);
    LocatedInPlace(quote, source, FoldOrigins(PYTHON_RULES, source), align, exact);
    forall i: nat, j: nat | i <= j <= |source| && source[i..j] == quote
      ensures exact != -1 && exact <= i
    {
      assert j == i + |quote|;
      assert OccursAt(source, quote, i);
    }
  }

  /** With nothing moved by folding, what is found is where it stands. */
  lemma LocatedInPlace(quote: Text, source: Text, origins: seq<nat>, align: Aligner, exact: int)
    requires Bounded(align) && quote != [] && |origins| == |source|
    requires forall i :: 0 <= i < |origins| ==> origins[i] == i
    requires exact == FindFrom(source, quote, 0)
    ensures exact != -1 ==>
              && LocateFolded(quote, source, origins, align) == Some(QuoteMatch(exact, exact + |quote|, false, 100.0))
              && exact + |quote| <= |source| && source[exact..exact + |quote|] == quote
    ensures exact == -1 ==>
              var found := LocateFolded(quote, source, origins, align);
              found.Some? ==> found.value.fuzzy
  {
    if exact != -1 {
      FoundInPlace(quote, source, origins, align, exact);
    }
  }

  lemma FoundInPlace(quote: Text, source: Text, origins: seq<nat>, align: Aligner, exact: nat)
    requires Bounded(align) && quote != [] && |origins| == |source|
    requires forall i :: 0 <= i < |origins| ==> origins[i] == i
    requires exact == FindFrom(source, quote, 0) && exact + |quote| <= |source|
    ensures LocateFolded(quote, source, origins, align) == Some(QuoteMatch(exact, exact + |quote|, false, 100.0))
  {
    SpanInPlace(origins, exact, exact + |quote|);
  }

  lemma SpanInPlace(origins: seq<nat>, start: nat, end: nat)
    requires start < end <= |origins|
    requires forall i :: 0 <= i < |origins| ==> origins[i] == i
    ensures ToSourceSpan(origins, start, end) == (start, end)
  {
  }
}

/**
 * Every count reported for one configuration (`score_group` in src/evals/metrics.py), and the
 * grouping of stored rows into configurations (`score_all`).
 */
module Scoring {
  import opened Wrappers
  import opened Analyze
  import opened Metrics

  datatype InputVariant = TitleOnly | TitleAndLead

  datatype Assessment = Neutral | MildlyLoaded | HeavilyLoaded

  datatype Kind = NeutralKind | LoadedKind | Borderline | QuotedSpeech

  /** What makes one configuration: the run, the model, what it was shown and how. */
  datatype Key = Key(run: nat, model: string, variant: InputVariant, grammar: string, sourceLabel: Option<string>)

  /** One stored analysis of a labelled article. */
  datatype Row = Row(
    id: nat,
    article: nat,
    key: Key,
    parseError: bool,
    consistencyError: bool,
    category: Option<Category>,
    expectedCategory: Category,
    assessment: Option<Assessment>,
    expectedAssessment: Assessment,
    kind: Kind
  )

  datatype Scores = Scores(
    calls: nat,
    parseFailures: nat,
    consistencyErrors: nat,
    truePositives: nat,
    falsePositives: nat,
    falseNegatives: int,
    truePositivesConfident: nat,
    falsePositivesConfident: nat,
    spanHits: nat,
    categoryHits: nat,
    categoryTotal: nat,
    assessmentHits: nat,
    emptyFindings: nat,
    neutralArticles: nat,
    neutralWithFindings: nat,
    neutralFalseFindings: nat
  )

  const ZERO: Scores := Scores(0, 0, 0, 0, 0, 0, 0, 0, 0, 0, 0, 0, 0, 0, 0, 0)

  type FindingsByAnalysis = map<nat, seq<Scored>>
  type LabelsByArticle = map<nat, seq<Label>>

  function FindingsOf(row: Row, findings: FindingsByAnalysis): seq<Scored> {
    if row.id in findings then findings[row.id] else []
  }

  predicate IsVisible(variant: InputVariant, l: Label) {
    l.field == Title || variant == TitleAndLead
  }

  /** The labels in fields the model was shown. */
  function VisibleLabels(labels: seq<Label>, variant: InputVariant): seq<Label> {
    if labels == [] then []
    else
      (if IsVisible(variant, labels[0]) then [labels[0]] else []) + VisibleLabels(labels[1..], variant)
  }

  function ExpectedFor(row: Row, labels: LabelsByArticle, variant: InputVariant): seq<Label> {
    VisibleLabels(if row.article in labels then labels[row.article] else [], variant)
  }

  // ---------------------------------------------------------------------------
  // The counts, defined by the matching
  // ---------------------------------------------------------------------------

  function Count(found: seq<Scored>, hits: seq<Option<nat>>, hit: bool, confidentOnly: bool): nat
    requires |hits| == |found|
  {
    if found == [] then 0
    else
      var n := |found| - 1;
      Count(found[..n], hits[..n], hit, confidentOnly)
      + if hits[n].Some? == hit && (confidentOnly ==> IsConfident(found[n])) then 1 else 0
  }

  function SpanHits(found: seq<Scored>, expected: seq<Label>, n: nat): nat
    requires n <= |found|
  {
    if n == 0 then 0 else SpanHits(found, expected, n - 1) + if HitsSpan(found[n - 1], expected) then 1 else 0
  }

  /** The findings of one row, scored. */
  function ScoreFindings(s: Scores, found: seq<Scored>, expected: seq<Label>, n: nat): Scores
    requires n <= |found|
  {
    var hits := Greedy(found, expected, n);
    s.(
      truePositives := s.truePositives + Count(found[..n], hits, true, false),
      falsePositives := s.falsePositives + Count(found[..n], hits, false, false),
      truePositivesConfident := s.truePositivesConfident + Count(found[..n], hits, true, true),
      falsePositivesConfident := s.falsePositivesConfident + Count(found[..n], hits, false, true),
      spanHits := s.spanHits + SpanHits(found, expected, n))
  }

  /** The verdict counters of one parsed row. */
  function ScoreVerdict(s: Scores, row: Row, found: seq<Scored>): Scores {
    s.(
      consistencyErrors := s.consistencyErrors + if row.consistencyError then 1 else 0,
      categoryTotal := s.categoryTotal + 1,
      categoryHits := s.categoryHits + if row.category == Some(row.expectedCategory) then 1 else 0,
      assessmentHits := s.assessmentHits + if row.assessment == Some(row.expectedAssessment) then 1 else 0,
      emptyFindings := s.emptyFindings + if found == [] then 1 else 0)
  }

  /** What is left once the findings are matched: missed labels, and accusations against neutral articles. */
  function ScoreRest(s: Scores, row: Row, found: seq<Scored>, missed: int): Scores {
    s.(
      falseNegatives := s.falseNegatives + missed,
      neutralArticles := s.neutralArticles + if row.kind == NeutralKind then 1 else 0,
      neutralWithFindings := s.neutralWithFindings + if row.kind == NeutralKind && found != [] then 1 else 0,
      neutralFalseFindings := s.neutralFalseFindings + if row.kind == NeutralKind then |found| else 0)
  }

  function ScoreRow(s: Scores, row: Row, found: seq<Scored>, expected: seq<Label>): Scores {
    if row.parseError then s.(parseFailures := s.parseFailures + 1)
    else
      var matched := Taken(Greedy(found, expected, |found|));
      var scored := ScoreFindings(ScoreVerdict(s, row, found), found, expected, |found|);
      ScoreRest(scored, row, found, |expected| - |matched|)
  }

  function ScoreRows(
    rows: seq<Row>, findings: FindingsByAnalysis, labels: LabelsByArticle, variant: InputVariant, n: nat
  ): Scores
    requires n <= |rows|
  {
    if n == 0 then ZERO
    else
      var row := rows[n - 1];
      var s := ScoreRows(rows, findings, labels, variant, n - 1);
      ScoreRow(s, row, FindingsOf(row, findings), ExpectedFor(row, labels, variant))
  }

  // ---------------------------------------------------------------------------
  // The loops
  // ---------------------------------------------------------------------------

  lemma CountsStep(found: seq<Scored>, expected: seq<Label>, n: nat, hit: bool, confidentOnly: bool)
    requires n < |found|
    ensures Count(found[..n + 1], Greedy(found, expected, n + 1), hit, confidentOnly) ==
            Count(found[..n], Greedy(found, expected, n), hit, confidentOnly)
            + if FirstFree(found[n], expected, Taken(Greedy(found, expected, n)), 0).Some? == hit
                 && (confidentOnly ==> IsConfident(found[n])) then 1 else 0
  {
    assert found[..n + 1][..n] == found[..n];
    assert Greedy(found, expected, n + 1)[..n] == Greedy(found, expected, n);
  }

  lemma TurnScores(s: Scores, found: seq<Scored>, expected: seq<Label>, n: nat)
    requires n < |found|
    ensures var before, after := ScoreFindings(s, found, expected, n), ScoreFindings(s, found, expected, n + 1);
            var hit := FirstFree(found[n], expected, Taken(Greedy(found, expected, n)), 0).Some?;
            var confident := IsConfident(found[n]);
            && after == before.(
                 truePositives := before.truePositives + (if hit then 1 else 0),
                 falsePositives := before.falsePositives + (if hit then 0 else 1),
                 truePositivesConfident := before.truePositivesConfident + (if hit && confident then 1 else 0),
                 falsePositivesConfident := before.falsePositivesConfident + (if !hit && confident then 1 else 0),
                 spanHits := before.spanHits + (if HitsSpan(found[n], expected) then 1 else 0))
  {
    CountsStep(found, expected, n, true, false);
    CountsStep(found, expected, n, false, false);
    CountsStep(found, expected, n, true, true);
    CountsStep(found, expected, n, false, true);
  }

  /** The inner loop: each finding claims the first unclaimed label it matches. */
  method MatchFindings(scores: Scores, found: seq<Scored>, expected: seq<Label>) returns (s: Scores, matched: set<nat>)
    ensures s == ScoreFindings(scores, found, expected, |found|)
    ensures matched == Taken(Greedy(found, expected, |found|))
  {
    s, matched := scores, {};
    assert found[..0] == [];
    for n := 0 to |found|
      invariant s == ScoreFindings(scores, found, expected, n)
      invariant matched == Taken(Greedy(found, expected, n))
    {
      TurnScores(scores, found, expected, n);
      OneMore(Greedy(found, expected, n), FirstFree(found[n], expected, matched, 0));
      var finding := found[n];
      if HitsSpan(finding, expected) {
        s := s.(spanHits := s.spanHits + 1);
      }
      var hit := FirstFree(finding, expected, matched, 0);
      var confident := IsConfident(finding);
      if hit.None? {
        s := s.(falsePositives := s.falsePositives + 1);
        if confident {
          s := s.(falsePositivesConfident := s.falsePositivesConfident + 1);
        }
      } else {
        matched := matched + {hit.value};
        s := s.(truePositives := s.truePositives + 1);
        if confident {
          s := s.(truePositivesConfident := s.truePositivesConfident + 1);
        }
      }
    }
  }

  method CountVerdict(scores: Scores, row: Row, found: seq<Scored>) returns (s: Scores)
    ensures s == ScoreVerdict(scores, row, found)
  {
    s := scores;
    if row.consistencyError {
      s := s.(consistencyErrors := s.consistencyErrors + 1);
    }
    s := s.(categoryTotal := s.categoryTotal + 1);
    if row.category == Some(row.expectedCategory) {
      s := s.(categoryHits := s.categoryHits + 1);
    }
    if row.assessment == Some(row.expectedAssessment) {
      s := s.(assessmentHits := s.assessmentHits + 1);
    }
    if found == [] {
      s := s.(emptyFindings := s.emptyFindings + 1);
    }
  }

  method CountRest(scores: Scores, row: Row, found: seq<Scored>, missed: int) returns (s: Scores)
    ensures s == ScoreRest(scores, row, found, missed)
  {
    s := scores.(falseNegatives := scores.falseNegatives + missed);
    if row.kind == NeutralKind {
      s := s.(neutralArticles := s.neutralArticles + 1);
      if found != [] {
        s := s.(neutralWithFindings := s.neutralWithFindings + 1);
        s := s.(neutralFalseFindings := s.neutralFalseFindings + |found|);
      }
    }
  }

  method ScoreOne(scores: Scores, row: Row, found: seq<Scored>, expected: seq<Label>) returns (s: Scores)
    ensures s == ScoreRow(scores, row, found, expected)
  {
    if row.parseError {
      return scores.(parseFailures := scores.parseFailures + 1);
    }
    s := CountVerdict(scores, row, found);
    var matched;
    s, matched := MatchFindings(s, found, expected);
    s := CountRest(s, row, found, |expected| - |matched|);
  }

  method ScoreGroup(rows: seq<Row>, findings: FindingsByAnalysis, labels: LabelsByArticle) returns (s: Scores)
    requires rows != []
    ensures s == ScoreRows(rows, findings, labels, rows[0].key.variant, |rows|).(calls := |rows|)
  {
    var variant := rows[0].key.variant;
    s := ZERO;
    for n := 0 to |rows|
      invariant s == ScoreRows(rows, findings, labels, variant, n)
    {
      var row := rows[n];
      s := ScoreOne(s, row, FindingsOf(row, findings), ExpectedFor(row, labels, variant));
    }
    s := s.(calls := |rows|);
  }

  // ---------------------------------------------------------------------------
  // What the totals mean
  // ---------------------------------------------------------------------------

  lemma {:induction false} CountsAddUp(found: seq<Scored>, hits: seq<Option<nat>>)
    requires |hits| == |found|
    ensures Count(found, hits, true, false) == CountHits(hits)
    ensures Count(found, hits, true, false) + Count(found, hits, false, false) == |found|
    ensures Count(found, hits, true, true) <= Count(found, hits, true, false)
    ensures Count(found, hits, false, true) <= Count(found, hits, false, false)
  {
    if found != [] {
      CountsAddUp(found[..|found| - 1], hits[..|hits| - 1]);
    }
  }

  /** A finding that claims a label also lands on a labelled span. */
  lemma {:induction false} HitsLandOnSpans(found: seq<Scored>, expected: seq<Label>, n: nat)
    requires n <= |found|
    ensures CountHits(Greedy(found, expected, n)) <= SpanHits(found, expected, n) <= n
  {
    if n > 0 {
      HitsLandOnSpans(found, expected, n - 1);
      var earlier := Greedy(found, expected, n - 1);
      OneMore(earlier, FirstFree(found[n - 1], expected, Taken(earlier), 0));
    }
  }

  function ParsedFindings(rows: seq<Row>, findings: FindingsByAnalysis, n: nat): nat
    requires n <= |rows|
  {
    if n == 0 then 0
    else ParsedFindings(rows, findings, n - 1)
         + if rows[n - 1].parseError then 0 else |FindingsOf(rows[n - 1], findings)|
  }

  function ReachableLabels(rows: seq<Row>, labels: LabelsByArticle, variant: InputVariant, n: nat): nat
    requires n <= |rows|
  {
    if n == 0 then 0
    else ReachableLabels(rows, labels, variant, n - 1)
         + if rows[n - 1].parseError then 0 else |ExpectedFor(rows[n - 1], labels, variant)|
  }

  /** Some way of pairing a row's findings with its labels; an unparsed row has none. */
  ghost predicate ValidRow(
    other: map<nat, nat>, row: Row, findings: FindingsByAnalysis, labels: LabelsByArticle, variant: InputVariant
  ) {
    if row.parseError then other == map[]
    else ValidMatching(other, FindingsOf(row, findings), ExpectedFor(row, labels, variant))
  }

  ghost predicate ValidRows(
    others: seq<map<nat, nat>>, rows: seq<Row>, findings: FindingsByAnalysis, labels: LabelsByArticle,
    variant: InputVariant
  ) {
    |others| == |rows| && forall i :: 0 <= i < |rows| ==> ValidRow(others[i], rows[i], findings, labels, variant)
  }

  function Pairs(others: seq<map<nat, nat>>, n: nat): nat
    requires n <= |others|
  {
    if n == 0 then 0 else Pairs(others, n - 1) + |others[n - 1]|
  }

  /** How many findings and labels the parsed rows have, and how many pairs some matching makes of them. */
  datatype Sizes = Sizes(found: nat, labels: nat, pairs: nat)

  function SizesOf(rows: seq<Row>, findings: FindingsByAnalysis, labels: LabelsByArticle, variant: InputVariant,
                   others: seq<map<nat, nat>>, n: nat): Sizes
    requires n <= |rows| && n <= |others|
  {
    Sizes(ParsedFindings(rows, findings, n), ReachableLabels(rows, labels, variant, n), Pairs(others, n))
  }

  /** What the counts of a configuration satisfy, whatever the rows. */
  ghost predicate Balanced(s: Scores, sizes: Sizes, n: nat) {
    && s.parseFailures + s.categoryTotal == n
    && s.truePositives + s.falsePositives == sizes.found
    && s.truePositives + s.falseNegatives == sizes.labels && s.falseNegatives >= 0
    && s.truePositives <= s.spanHits <= sizes.found
    && sizes.pairs <= 2 * s.truePositives
    && s.truePositivesConfident <= s.truePositives
    && s.falsePositivesConfident <= s.falsePositives
    && s.neutralWithFindings <= s.neutralArticles <= s.categoryTotal
  }

  /** The counts the matching of one row adds. */
  lemma FindingsBalanced(s: Scores, found: seq<Scored>, expected: seq<Label>, other: map<nat, nat>)
    requires ValidMatching(other, found, expected)
    ensures var hits := Greedy(found, expected, |found|);
            var t := ScoreFindings(s, found, expected, |found|);
            var tp := t.truePositives - s.truePositives;
            && tp == |Taken(hits)| <= |expected|
            && tp + (t.falsePositives - s.falsePositives) == |found|
            && tp <= t.spanHits - s.spanHits <= |found|
            && t.truePositivesConfident - s.truePositivesConfident <= tp
            && t.falsePositivesConfident - s.falsePositivesConfident <= t.falsePositives - s.falsePositives
            && |other| <= 2 * tp
  {
    assert found[..|found|] == found;
    CountsAddUp(found, Greedy(found, expected, |found|));
    HitsLandOnSpans(found, expected, |found|);
    GreedyTakes(found, expected, |found|);
    TakenFits(found, expected);
    GreedyAtLeastHalf(found, expected, other);
  }

  /** The sizes with one more row. */
  function Grown(sizes: Sizes, row: Row, found: seq<Scored>, expected: seq<Label>, other: map<nat, nat>): Sizes {
    if row.parseError then sizes.(pairs := sizes.pairs + |other|)
    else Sizes(sizes.found + |found|, sizes.labels + |expected|, sizes.pairs + |other|)
  }

  lemma RowBalanced(
    s: Scores, row: Row, found: seq<Scored>, expected: seq<Label>, other: map<nat, nat>, sizes: Sizes, n: nat
  )
    requires Balanced(s, sizes, n)
    requires if row.parseError then other == map[] else ValidMatching(other, found, expected)
    ensures Balanced(ScoreRow(s, row, found, expected), Grown(sizes, row, found, expected, other), n + 1)
  {
    if !row.parseError {
      FindingsBalanced(ScoreVerdict(s, row, found), found, expected, other);
    }
  }

  /** The row's scores and sizes, named, so that the sums over rows need not look inside them. */
  ghost predicate BalancedAt(rows: seq<Row>, findings: FindingsByAnalysis, labels: LabelsByArticle,
                             variant: InputVariant, others: seq<map<nat, nat>>, n: nat)
    requires n <= |rows| && n <= |others|
  {
    Balanced(ScoreRows(rows, findings, labels, variant, n), SizesOf(rows, findings, labels, variant, others, n), n)
  }

  lemma NoRowsBalanced(rows: seq<Row>, findings: FindingsByAnalysis, labels: LabelsByArticle,
                       variant: InputVariant, others: seq<map<nat, nat>>)
    ensures BalancedAt(rows, findings, labels, variant, others, 0)
  {
  }

  lemma NextBalanced(rows: seq<Row>, findings: FindingsByAnalysis, labels: LabelsByArticle,
                     variant: InputVariant, others: seq<map<nat, nat>>, n: nat)
    requires 0 < n <= |rows| && n <= |others| && BalancedAt(rows, findings, labels, variant, others, n - 1)
    requires ValidRow(others[n - 1], rows[n - 1], findings, labels, variant)
    ensures BalancedAt(rows, findings, labels, variant, others, n)
  {
    var i := n - 1;
    var s, sizes := ScoreRows(rows, findings, labels, variant, i), SizesOf(rows, findings, labels, variant, others, i);
    var found, expected := FindingsOf(rows[i], findings), ExpectedFor(rows[i], labels, variant);
    RowBalanced(s, rows[i], found, expected, others[i], sizes, i);
    assert ScoreRows(rows, findings, labels, variant, n) == ScoreRow(s, rows[i], found, expected);
  }

  /**
   * Over all rows of a configuration: every finding is a true or a false positive, every label
   * the model could have found is a true positive or a false negative, a true positive lands on a
   * labelled span, and no way of pairing findings with labels has more than twice the true positives.
   */
  lemma {:induction false} ScoresBalanced(rows: seq<Row>, findings: FindingsByAnalysis, labels: LabelsByArticle,
                                          variant: InputVariant, others: seq<map<nat, nat>>, n: nat)
    requires n <= |rows| && ValidRows(others, rows, findings, labels, variant)
    ensures BalancedAt(rows, findings, labels, variant, others, n)
  {
    if n == 0 {
      NoRowsBalanced(rows, findings, labels, variant, others);
    } else {
      ScoresBalanced(rows, findings, labels, variant, others, n - 1);
      NextBalanced(rows, findings, labels, variant, others, n);
    }
  }

  // ---------------------------------------------------------------------------
  // Grouping rows into configurations
  // ---------------------------------------------------------------------------

  function OfKey(rows: seq<Row>, key: Key): (group: seq<Row>)
    ensures forall row :: row in group <==> row in rows && row.key == key
    ensures group == [] <==> forall row :: row in rows ==> row.key != key
  {
    if rows == [] then []
    else OfKey(rows[..|rows| - 1], key) + if rows[|rows| - 1].key == key then [rows[|rows| - 1]] else []
  }

  ghost predicate Grouped(groups: map<Key, seq<Row>>, rows: seq<Row>) {
    && (forall row :: row in rows ==> row.key in groups)
    && (forall key :: key in groups ==> groups[key] == OfKey(rows, key) && groups[key] != [])
  }

  lemma UpdateTwice<K, V>(m: map<K, V>, k: K, v: V, w: V)
    ensures m[k := v][k := w] == m[k := w]
  {
  }

  function WithRow(groups: map<Key, seq<Row>>, row: Row): map<Key, seq<Row>> {
    groups[row.key := (if row.key in groups then groups[row.key] else []) + [row]]
  }

  function GroupsOf(rows: seq<Row>): map<Key, seq<Row>> {
    if rows == [] then map[] else WithRow(GroupsOf(rows[..|rows| - 1]), rows[|rows| - 1])
  }

  lemma GroupedLonger(groups: map<Key, seq<Row>>, rows: seq<Row>, row: Row)
    requires Grouped(groups, rows)
    ensures Grouped(WithRow(groups, row), rows + [row])
  {
    assert (rows + [row])[..|rows|] == rows;
  }

  lemma {:induction false} GroupsAreGrouped(rows: seq<Row>)
    ensures Grouped(GroupsOf(rows), rows)
  {
    if rows != [] {
      var init, last := rows[..|rows| - 1], rows[|rows| - 1];
      assert rows == init + [last];
      GroupsAreGrouped(init);
      GroupedLonger(GroupsOf(init), init, last);
      assert GroupsOf(rows) == WithRow(GroupsOf(init), last);
    }
  }

  /** `groups.setdefault(key, []).append(row)` over all rows. */
  method GroupRows(rows: seq<Row>) returns (groups: map<Key, seq<Row>>)
    ensures Grouped(groups, rows)
  {
    groups := map[];
    for n := 0 to |rows|
      invariant groups == GroupsOf(rows[..n])
    {
      assert rows[..n + 1][..n] == rows[..n];
      var row := rows[n];
      UpdateTwice(groups, row.key, [], [row]);
      if row.key !in groups {
        groups := groups[row.key := []];
      }
      groups := groups[row.key := groups[row.key] + [row]];
    }
    assert rows[..|rows|] == rows;
    GroupsAreGrouped(rows);
  }

  /**
   * The variant read off a group's first row is right for all of its rows, so the labels that
   * count for a row are exactly those in fields its own call was shown.
   */
  lemma VariantIsShared(rows: seq<Row>, key: Key, labels: LabelsByArticle, i: nat)
    requires i < |OfKey(rows, key)|
    ensures var group := OfKey(rows, key);
            ExpectedFor(group[i], labels, group[0].key.variant) == ExpectedFor(group[i], labels, group[i].key.variant)
  {
    var group := OfKey(rows, key);
    assert group[0] in group && group[i] in group;
  }

  // ---------------------------------------------------------------------------
  // What the counts count
  // ---------------------------------------------------------------------------

  predicate IsUnparsed(row: Row) {
    row.parseError
  }

  predicate IsParsed(row: Row) {
    !row.parseError
  }

  predicate IsInconsistent(row: Row) {
    !row.parseError && row.consistencyError
  }

  predicate HasCategoryRight(row: Row) {
    !row.parseError && row.category == Some(row.expectedCategory)
  }

  predicate HasAssessmentRight(row: Row) {
    !row.parseError && row.assessment == Some(row.expectedAssessment)
  }

  predicate IsNeutral(row: Row) {
    !row.parseError && row.kind == NeutralKind
  }

  /** Parsed, and no findings stored for it. */
  function FindsNothing(findings: FindingsByAnalysis): Row -> bool {
    (row: Row) => !row.parseError && (row.id in findings ==> findings[row.id] == [])
  }

  function AccusesNeutral(findings: FindingsByAnalysis): Row -> bool {
    (row: Row) => IsNeutral(row) && row.id in findings && findings[row.id] != []
  }

  /** The rows among the first `n` with a property. */
  ghost function RowsWith(rows: seq<Row>, n: nat, property: Row -> bool): set<nat>
    requires n <= |rows|
  {
    set i: nat | i < n && property(rows[i])
  }

  function Tally(rows: seq<Row>, n: nat, property: Row -> bool): nat
    requires n <= |rows|
  {
    if n == 0 then 0 else Tally(rows, n - 1, property) + if property(rows[n - 1]) then 1 else 0
  }

  lemma {:induction false} TallyIsCardinality(rows: seq<Row>, n: nat, property: Row -> bool)
    requires n <= |rows|
    ensures Tally(rows, n, property) == |RowsWith(rows, n, property)|
  {
    if n == 0 {
      assert RowsWith(rows, n, property) == {};
    } else {
      TallyIsCardinality(rows, n - 1, property);
      assert RowsWith(rows, n, property) ==
             RowsWith(rows, n - 1, property) + if property(rows[n - 1]) then {n - 1} else {};
    }
  }

  lemma {:induction false} VerdictsTallied(
    rows: seq<Row>, findings: FindingsByAnalysis, labels: LabelsByArticle, variant: InputVariant, n: nat
  )
    requires n <= |rows|
    ensures var s := ScoreRows(rows, findings, labels, variant, n);
            && s.parseFailures == Tally(rows, n, IsUnparsed)
            && s.categoryTotal == Tally(rows, n, IsParsed)
            && s.consistencyErrors == Tally(rows, n, IsInconsistent)
            && s.categoryHits == Tally(rows, n, HasCategoryRight)
            && s.assessmentHits == Tally(rows, n, HasAssessmentRight)
  {
    if n > 0 {
      VerdictsTallied(rows, findings, labels, variant, n - 1);
    }
  }

  lemma {:induction false} NeutralsTallied(
    rows: seq<Row>, findings: FindingsByAnalysis, labels: LabelsByArticle, variant: InputVariant, n: nat
  )
    requires n <= |rows|
    ensures var s := ScoreRows(rows, findings, labels, variant, n);
            && s.emptyFindings == Tally(rows, n, FindsNothing(findings))
            && s.neutralArticles == Tally(rows, n, IsNeutral)
            && s.neutralWithFindings == Tally(rows, n, AccusesNeutral(findings))
            && s.neutralFalseFindings == Accusations(rows, findings, n)
  {
    if n > 0 {
      NeutralsTallied(rows, findings, labels, variant, n - 1);
    }
  }

  /** Each verdict counter is the number of rows with what it counts; accusations are counted one by one. */
  lemma RowsCounted(
    rows: seq<Row>, findings: FindingsByAnalysis, labels: LabelsByArticle, variant: InputVariant, n: nat
  )
    requires n <= |rows|
    ensures var s := ScoreRows(rows, findings, labels, variant, n);
            && s.parseFailures == |RowsWith(rows, n, IsUnparsed)|
            && s.categoryTotal == |RowsWith(rows, n, IsParsed)|
            && s.consistencyErrors == |RowsWith(rows, n, IsInconsistent)|
            && s.categoryHits == |RowsWith(rows, n, HasCategoryRight)|
            && s.assessmentHits == |RowsWith(rows, n, HasAssessmentRight)|
            && s.emptyFindings == |RowsWith(rows, n, FindsNothing(findings))|
            && s.neutralArticles == |RowsWith(rows, n, IsNeutral)|
            && s.neutralWithFindings == |RowsWith(rows, n, AccusesNeutral(findings))|
            && s.neutralFalseFindings == Accusations(rows, findings, n)
  {
    VerdictsTallied(rows, findings, labels, variant, n);
    NeutralsTallied(rows, findings, labels, variant, n);
    TallyIsCardinality(rows, n, IsUnparsed);
    TallyIsCardinality(rows, n, IsParsed);
    TallyIsCardinality(rows, n, IsInconsistent);
    TallyIsCardinality(rows, n, HasCategoryRight);
    TallyIsCardinality(rows, n, HasAssessmentRight);
    TallyIsCardinality(rows, n, FindsNothing(findings));
    TallyIsCardinality(rows, n, IsNeutral);
    TallyIsCardinality(rows, n, AccusesNeutral(findings));
  }

  /** Findings against neutral articles. */
  function Accusations(rows: seq<Row>, findings: FindingsByAnalysis, n: nat): nat
    requires n <= |rows|
  {
    if n == 0 then 0
    else
      var row := rows[n - 1];
      Accusations(rows, findings, n - 1)
      + if !row.parseError && row.kind == NeutralKind && row.id in findings then |findings[row.id]| else 0
  }

  /** A finding the model gave a confidence of at least 0.7; one without a confidence is not. */
  predicate GivenConfidently(f: Scored) {
    f.confidence.Some? && f.confidence.value >= 0.7
  }

  predicate PickedAt(found: seq<Scored>, hits: seq<Option<nat>>, hit: bool, confidentOnly: bool, k: nat)
    requires |hits| == |found| && k < |found|
  {
    hits[k].Some? == hit && (confidentOnly ==> GivenConfidently(found[k]))
  }

  ghost function FindingsWith(
    found: seq<Scored>, hits: seq<Option<nat>>, hit: bool, confidentOnly: bool
  ): set<nat>
    requires |hits| == |found|
  {
    set k: nat | k < |found| && PickedAt(found, hits, hit, confidentOnly, k)
  }

  /** The positives, true and false, all and confident, are numbers of findings. */
  lemma {:induction false} FindingsCounted(found: seq<Scored>, hits: seq<Option<nat>>, hit: bool, confidentOnly: bool)
    requires |hits| == |found|
    ensures Count(found, hits, hit, confidentOnly) == |FindingsWith(found, hits, hit, confidentOnly)|
  {
    if found == [] {
      assert FindingsWith(found, hits, hit, confidentOnly) == {};
    } else {
      var n := |found| - 1;
      FindingsCounted(found[..n], hits[..n], hit, confidentOnly);
      OneFindingMore(found[..n], hits[..n], found[n], hits[n], hit, confidentOnly);
      assert found == found[..n] + [found[n]] && hits == hits[..n] + [hits[n]];
    }
  }

  lemma OneFindingMore(
    found: seq<Scored>, hits: seq<Option<nat>>, f: Scored, h: Option<nat>, hit: bool, confidentOnly: bool
  )
    requires |hits| == |found|
    ensures |FindingsWith(found + [f], hits + [h], hit, confidentOnly)| ==
            |FindingsWith(found, hits, hit, confidentOnly)|
            + if h.Some? == hit && (confidentOnly ==> GivenConfidently(f)) then 1 else 0
  {
    var fs, hs, n := found + [f], hits + [h], |found|;
    forall k: nat | k < n
      ensures PickedAt(fs, hs, hit, confidentOnly, k) == PickedAt(found, hits, hit, confidentOnly, k)
    {
      assert fs[k] == found[k] && hs[k] == hits[k];
    }
    assert fs[n] == f && hs[n] == h;
    assert FindingsWith(fs, hs, hit, confidentOnly) ==
           FindingsWith(found, hits, hit, confidentOnly)
           + if PickedAt(fs, hs, hit, confidentOnly, n) then {n} else {};
  }

  ghost function FindingsOnSpans(found: seq<Scored>, expected: seq<Label>, n: nat): set<nat>
    requires n <= |found|
  {
    set k: nat | k < n && exists l :: 0 <= l < |expected| && Overlaps(found[k], expected[l])
  }

  /** Span hits are the findings that overlap some label, whatever it is called. */
  lemma {:induction false} SpansCounted(found: seq<Scored>, expected: seq<Label>, n: nat)
    requires n <= |found|
    ensures SpanHits(found, expected, n) == |FindingsOnSpans(found, expected, n)|
  {
    if n == 0 {
      assert FindingsOnSpans(found, expected, 0) == {};
    } else {
      SpansCounted(found, expected, n - 1);
      var on := exists l :: 0 <= l < |expected| && Overlaps(found[n - 1], expected[l]);
      assert FindingsOnSpans(found, expected, n) ==
             FindingsOnSpans(found, expected, n - 1) + if on then {n - 1} else {};
    }
  }

  /** A call that was shown the lead can find every label. */
  lemma {:induction false} AllVisible(labels: seq<Label>)
    ensures VisibleLabels(labels, TitleAndLead) == labels
  {
    if labels != [] {
      AllVisible(labels[1..]);
    }
  }

  /** A headline-only call can find the headline's labels and no others, each as often as it is there. */
  lemma {:induction false} HeadlineVisible(labels: seq<Label>, l: Label)
    ensures multiset(VisibleLabels(labels, TitleOnly))[l] == if l.field == Title then multiset(labels)[l] else 0
  {
    if labels != [] {
      HeadlineVisible(labels[1..], l);
      assert labels == [labels[0]] + labels[1..];
    }
  }
}

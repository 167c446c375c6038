/**
 * The article page (web/app/[locale]/articles/[id]/page.tsx): findings grouped by field, marked
 * in the text by `segment`, and numbered in reading order. Ties the page to the quote check.
 */
module ArticlePage {
  import opened Typography
  import opened Validator
  import opened Analyze
  import opened Corpus
  import opened CorpusRuns
  import opened Segments
  import opened Positions

  function InField(findings: seq<VerifiedFinding>, field: Field): seq<VerifiedFinding> {
    if findings == [] then []
    else
      var n := |findings| - 1;
      InField(findings[..n], field) + if findings[n].field == field then [findings[n]] else []
  }

  /** The findings of a field, by position: all of them, in the order they were served. */
  lemma {:induction false} InFieldInOrder(findings: seq<VerifiedFinding>, field: Field) returns (positions: seq<nat>)
    ensures Ascending(positions) && |positions| == |InField(findings, field)|
    ensures forall k: nat :: k in positions <==> k < |findings| && findings[k].field == field
    ensures forall i :: 0 <= i < |positions| ==>
              positions[i] < |findings| && InField(findings, field)[i] == findings[positions[i]]
  {
    if findings == [] {
      positions := [];
    } else {
      var n := |findings| - 1;
      var earlier := InFieldInOrder(findings[..n], field);
      positions := earlier + if findings[n].field == field then [n] else [];
      forall k: nat
        ensures k in positions <==> k < |findings| && findings[k].field == field
      {
        assert k in positions <==> k in earlier || (k == n && findings[n].field == field);
      }
    }
  }

  lemma InFieldMember(findings: seq<VerifiedFinding>, field: Field, j: nat)
    requires j < |InField(findings, field)|
    ensures InField(findings, field)[j] in findings && InField(findings, field)[j].field == field
  {
    var positions := InFieldInOrder(findings, field);
    assert positions[j] in positions;
  }

  /** Headline findings first, then the lead's; the list beside the text runs in this order. */
  function ReadingOrder(findings: seq<VerifiedFinding>): seq<VerifiedFinding> {
    InField(findings, Title) + InField(findings, Lead)
  }

  /** `firstNumber`, the number of the first mark in this field. */
  function FirstNumber(findings: seq<VerifiedFinding>, field: Field): nat {
    match field
    case Title => 1
    case Lead => |InField(findings, Title)| + 1
  }

  function SpansOf(findings: seq<VerifiedFinding>): (spans: seq<Span>)
    ensures |spans| == |findings|
    ensures forall i :: 0 <= i < |findings| ==> spans[i] == Span(findings[i].start, findings[i].end)
  {
    if findings == [] then []
    else [Span(findings[0].start, findings[0].end)] + SpansOf(findings[1..])
  }

  lemma CountLast(findings: seq<VerifiedFinding>, last: VerifiedFinding, f: VerifiedFinding)
    ensures multiset(findings + [last])[f] == multiset(findings)[f] + if last == f then 1 else 0
  {
  }

  lemma {:induction false} CountInField(findings: seq<VerifiedFinding>, field: Field, f: VerifiedFinding)
    ensures multiset(InField(findings, field))[f] == if f.field == field then multiset(findings)[f] else 0
  {
    if findings != [] {
      var init, last := findings[..|findings| - 1], findings[|findings| - 1];
      CountInField(init, field, f);
      assert findings == init + [last];
      CountLast(init, last, f);
      CountLast(InField(init, field), last, f);
    }
  }

  /** Every finding is listed, and listed once. */
  lemma ReadingOrderIsComplete(findings: seq<VerifiedFinding>)
    ensures multiset(ReadingOrder(findings)) == multiset(findings)
  {
    forall f
      ensures multiset(ReadingOrder(findings))[f] == multiset(findings)[f]
    {
      CountInField(findings, Title, f);
      CountInField(findings, Lead, f);
    }
  }

  /** Any finding that is genuine is highlighted as exactly the text it quotes. */
  lemma {:induction false} GenuineIsHighlighted(article: ArticleText, shown: seq<VerifiedFinding>, field: Field, j: nat)
    requires j < |shown| && shown[j].field == field && Genuine(shown[j], article)
    ensures article.Of(field).Some?
    ensures Marked(Segmentation(article.Of(field).value, SpansOf(shown)), j) == shown[j].quote
  {
    MarkedIsSlice(article.Of(field).value, SpansOf(shown), j);
  }

  lemma {:induction false} ServedAreGenuine(
    article: ArticleText, reply: seq<ModelFinding>, locate: Locator, served: seq<VerifiedFinding>
  )
    requires InBounds(locate)
    requires multiset(served) == multiset(Verified(reply, article.Fields(), locate))
    ensures forall f :: f in served ==> Genuine(f, article)
  {
    var kept := Verified(reply, article.Fields(), locate);
    VerifiedGenuine(reply, article, locate);
    forall f | f in served
      ensures f in kept
    {
      assert f in multiset(served);
      assert f in multiset(kept);
    }
  }

  /** The number on a mark names, in the list, the finding the mark belongs to. */
  lemma {:induction false} NumberNamesFinding(served: seq<VerifiedFinding>, field: Field, j: nat)
    requires j < |InField(served, field)|
    ensures var number := FirstNumber(served, field) + j;
            1 <= number <= |ReadingOrder(served)| && ReadingOrder(served)[number - 1] == InField(served, field)[j]
  {
  }

  /**
   * A reader of this page sees finding `j` of a field for what it is: the pieces marked with it
   * join to its quote, and the number on those pieces names it in the list beside the text.
   */
  ghost predicate ShownForWhatItIs(article: ArticleText, served: seq<VerifiedFinding>, field: Field, j: nat)
    requires j < |InField(served, field)|
  {
    var shown, number := InField(served, field), FirstNumber(served, field) + j;
    && article.Of(field).Some? && article.Of(field).value != []
    && Marked(Segmentation(article.Of(field).value, SpansOf(shown)), j) == shown[j].quote
    && 1 <= number <= |ReadingOrder(served)| && ReadingOrder(served)[number - 1] == shown[j]
  }

  lemma GenuineIsShown(article: ArticleText, served: seq<VerifiedFinding>, field: Field, j: nat)
    requires forall f :: f in served ==> Genuine(f, article)
    requires j < |InField(served, field)|
    ensures ShownForWhatItIs(article, served, field, j)
  {
    var shown := InField(served, field);
    InFieldMember(served, field, j);
    GenuineIsHighlighted(article, shown, field, j);
    NumberNamesFinding(served, field, j);
  }

  /**
   * End to end. Take any reply, keep what the quote check keeps, let the database hand the
   * findings back in any order: each is shown for what it is.
   */
  lemma MarkedTextIsTheQuote(
    article: ArticleText, reply: seq<ModelFinding>, locate: Locator,
    served: seq<VerifiedFinding>, field: Field, j: nat
  )
    requires InBounds(locate)
    requires multiset(served) == multiset(Verified(reply, article.Fields(), locate))
    requires j < |InField(served, field)|
    ensures ShownForWhatItIs(article, served, field, j)
  {
    ServedAreGenuine(article, reply, locate, served);
    GenuineIsShown(article, served, field, j);
  }

  // ---------------------------------------------------------------------------
  // The page at any later time
  // ---------------------------------------------------------------------------

  /** The finding stands in the table, under this analysis. */
  ghost predicate StoredUnder(db: Db, analysis: nat, f: VerifiedFinding) {
    exists i :: 0 <= i < |db.findings| && db.findings[i] == FindingRow(analysis, f)
  }

  lemma StoredIsGenuine(db: Db, analysis: nat, f: VerifiedFinding)
    requires Sound(db) && StoredUnder(db, analysis, f)
    ensures analysis < |db.analyses| && db.analyses[analysis].article < |db.articles|
    ensures Genuine(f, db.articles[db.analyses[analysis].article].text)
  {
    var i :| 0 <= i < |db.findings| && db.findings[i] == FindingRow(analysis, f);
    assert RowSound(db, db.findings[i]);
  }

  /**
   * In every state the system can reach, whatever was written, requeued or lost in a crash on
   * the way: serve any findings stored under one analysis, in any order, on the article as it is
   * stored then, and each is shown for what it is.
   */
  lemma StoredFindingsAreShown(
    steps: seq<Step>, locate: Locator, analysis: nat, served: seq<VerifiedFinding>, field: Field, j: nat
  )
    requires InBounds(locate)
    requires analysis < |Run(INITIAL, steps, locate).db.analyses|
    requires forall f :: f in served ==> StoredUnder(Run(INITIAL, steps, locate).db, analysis, f)
    requires j < |InField(served, field)|
    ensures var db := Run(INITIAL, steps, locate).db;
            && db.analyses[analysis].article < |db.articles|
            && ShownForWhatItIs(db.articles[db.analyses[analysis].article].text, served, field, j)
  {
    var db := Run(INITIAL, steps, locate).db;
    RunKeepsInvariant(INITIAL, steps, locate);
    var article := db.articles[db.analyses[analysis].article].text;
    forall f | f in served
      ensures Genuine(f, article)
    {
      StoredIsGenuine(db, analysis, f);
    }
    GenuineIsShown(article, served, field, j);
  }

  /** So it is with the locator the program uses, whatever its fuzzy aligner answers within bounds. */
  lemma PageShowsStoredQuotes(
    steps: seq<Step>, rules: Rules, align: Aligner, analysis: nat, served: seq<VerifiedFinding>, field: Field, j: nat
  )
    requires Lawful(rules) && Bounded(align)
    ensures InBounds(QuoteLocator(rules, align))
    ensures var db := Run(INITIAL, steps, QuoteLocator(rules, align)).db;
            && analysis < |db.analyses|
            && (forall f :: f in served ==> StoredUnder(db, analysis, f))
            && j < |InField(served, field)|
            ==> && db.analyses[analysis].article < |db.articles|
                && ShownForWhatItIs(db.articles[db.analyses[analysis].article].text, served, field, j)
  {
    QuoteLocatorInBounds(rules, align);
    var locate := QuoteLocator(rules, align);
    var db := Run(INITIAL, steps, locate).db;
    if
      && analysis < |db.analyses|
      && (forall f :: f in served ==> StoredUnder(db, analysis, f))
      && j < |InField(served, field)|
    {
      StoredFindingsAreShown(steps, locate, analysis, served, field, j);
    }
  }

  /** Two marks never carry the same number, so a number names one finding on the whole page. */
  lemma NumbersAreDistinct(served: seq<VerifiedFinding>, f: Field, i: nat, g: Field, j: nat)
    requires i < |InField(served, f)| && j < |InField(served, g)|
    requires FirstNumber(served, f) + i == FirstNumber(served, g) + j
    ensures f == g && i == j
  {
  }
}

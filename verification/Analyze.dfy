/**
 * From a model's reply to the findings worth keeping (src/analyzer/analyze.py): every quote is
 * looked for in the title, then in the lead, and what is kept is the slice of the source.
 */
module Analyze {
  import opened Wrappers
  import opened Typography
  import opened Validator
  import opened Positions

  datatype Field = Title | Lead

  datatype Technique =
    | EmotionalLoad
    | FearAppeal
    | Overgeneralization
    | LoadedQuestion
    | UnsourcedFigure
    | ClickbaitHook

  /** One finding as the model reported it. */
  datatype ModelFinding = ModelFinding(technique: Technique, quote: Text, confidence: real)

  /** One finding whose quote was located: `quote` is the source's own wording. */
  datatype VerifiedFinding = VerifiedFinding(
    technique: Technique,
    quote: Text,
    field: Field,
    start: nat,
    end: nat,
    fuzzy: bool,
    confidence: real
  )

  datatype Category = Polityka | Kultura | Technologia | Sport | Biznes | Geopolityka | Zdrowie | Inne

  /** What came back from the model: findings and a category, or a reply that did not parse. */
  datatype Reply = Parsed(findings: seq<ModelFinding>, category: Option<Category>) | Unparsed

  /** What one model call produced. */
  datatype Analysis = Analysis(
    parsed: bool,
    category: Option<Category>,
    findings: seq<VerifiedFinding>,
    rejected: seq<Text>
  )

  type Locator = (Text, Text) -> Option<QuoteMatch>

  ghost predicate InBounds(locate: Locator) {
    forall quote, source :: locate(quote, source).Some? ==>
      var m := locate(quote, source).value;
      m.start < m.end <= |source|
  }

  /** The locator the program uses, for the fuzzy aligner it happens to run with. */
  function QuoteLocator(rules: Rules, align: Aligner): Locator
    requires Bounded(align)
  {
    (quote, source) => LocateQuote(rules, quote, source, align)
  }

  lemma QuoteLocatorInBounds(rules: Rules, align: Aligner)
    requires Lawful(rules) && Bounded(align)
    ensures InBounds(QuoteLocator(rules, align))
  {
    forall quote, source
      ensures LocateQuote(rules, quote, source, align).Some? ==>
                var m := LocateQuote(rules, quote, source, align).value;
                m.start < m.end <= |source|
    {
      MatchInBounds(rules, quote, source, align);
    }
  }

  /** An article's text: the headline, and the lead where the portal publishes one. */
  datatype ArticleText = ArticleText(title: Text, lead: Option<Text>) {

    function Of(field: Field): Option<Text> {
      match field
      case Title => Some(title)
      case Lead => lead
    }

    /** The fields searched, in order. An absent lead and an empty one are the same. */
    function Fields(): seq<(Field, Text)> {
      if lead.Some? && lead.value != [] then [(Title, title), (Lead, lead.value)] else [(Title, title)]
    }
  }

  /** The finding points at a non-empty stretch of a field the article has, and quotes exactly that. */
  ghost predicate Genuine(finding: VerifiedFinding, article: ArticleText) {
    var text := article.Of(finding.field);
    && text.Some? && text.value != []
    && finding.start < finding.end <= |text.value|
    && finding.quote == text.value[finding.start..finding.end]
  }

  // ---------------------------------------------------------------------------
  // The verdict on one finding, and on a reply
  // ---------------------------------------------------------------------------

  function Sliced(finding: ModelFinding, field: Field, text: Text, m: QuoteMatch): VerifiedFinding
    requires m.start <= m.end <= |text|
  {
    VerifiedFinding(finding.technique, text[m.start..m.end], field, m.start, m.end, m.fuzzy, finding.confidence)
  }

  function Verdict(finding: ModelFinding, fields: seq<(Field, Text)>, locate: Locator): Option<VerifiedFinding>
    requires InBounds(locate)
  {
    if fields == [] then None
    else
      match locate(finding.quote, fields[0].1)
      case None => Verdict(finding, fields[1..], locate)
      case Some(m) => Some(Sliced(finding, fields[0].0, fields[0].1, m))
  }

  function Verified(findings: seq<ModelFinding>, fields: seq<(Field, Text)>, locate: Locator): seq<VerifiedFinding>
    requires InBounds(locate)
  {
    if findings == [] then []
    else
      var last := |findings| - 1;
      var earlier := Verified(findings[..last], fields, locate);
      match Verdict(findings[last], fields, locate)
      case None => earlier
      case Some(kept) => earlier + [kept]
  }

  function Rejected(findings: seq<ModelFinding>, fields: seq<(Field, Text)>, locate: Locator): seq<Text>
    requires InBounds(locate)
  {
    if findings == [] then []
    else
      var last := |findings| - 1;
      var earlier := Rejected(findings[..last], fields, locate);
      if Verdict(findings[last], fields, locate).None? then earlier + [findings[last].quote] else earlier
  }

  lemma RepliesSoFar(findings: seq<ModelFinding>, i: nat, fields: seq<(Field, Text)>, locate: Locator)
    requires InBounds(locate) && i < |findings|
    ensures var verdict := Verdict(findings[i], fields, locate);
            && Verified(findings[..i + 1], fields, locate) ==
               Verified(findings[..i], fields, locate) + (if verdict.None? then [] else [verdict.value])
            && Rejected(findings[..i + 1], fields, locate) ==
               Rejected(findings[..i], fields, locate) + (if verdict.None? then [findings[i].quote] else [])
  {
    assert findings[..i + 1][..i] == findings[..i];
  }

  /** The nested search loops; the inner one stops at the first field that has the quote. */
  method VerifyQuotes(findings: seq<ModelFinding>, article: ArticleText, locate: Locator)
    returns (verified: seq<VerifiedFinding>, rejected: seq<Text>)
    requires InBounds(locate)
    ensures verified == Verified(findings, article.Fields(), locate)
    ensures rejected == Rejected(findings, article.Fields(), locate)
  {
    var fields := [(Title, article.title)];
    if article.lead.Some? && article.lead.value != [] {
      fields := fields + [(Lead, article.lead.value)];
    }
    assert fields == article.Fields();
    verified, rejected := [], [];
    for i := 0 to |findings|
      invariant verified == Verified(findings[..i], fields, locate)
      invariant rejected == Rejected(findings[..i], fields, locate)
    {
      var finding := findings[i];
      var found := false;
      ghost var before := verified;
      for j := 0 to |fields|
        invariant !found && verified == before
        invariant Verdict(finding, fields, locate) == Verdict(finding, fields[j..], locate)
      {
        var (name, text) := fields[j];
        var m := locate(finding.quote, text);
        if m.None? {
          continue;
        }
        verified := verified + [Sliced(finding, name, text, m.value)];
        found := true;
        break;
      }
      if !found {
        rejected := rejected + [finding.quote];
      }
      RepliesSoFar(findings, i, fields, locate);
    }
    assert findings[..|findings|] == findings;
  }

  function KeptFindings(reply: Reply, seen: ArticleText, locate: Locator): seq<VerifiedFinding>
    requires InBounds(locate)
  {
    match reply
    case Parsed(findings, _) => Verified(findings, seen.Fields(), locate)
    case Unparsed => []
  }

  function RejectedQuotes(reply: Reply, seen: ArticleText, locate: Locator): seq<Text>
    requires InBounds(locate)
  {
    match reply
    case Parsed(findings, _) => Rejected(findings, seen.Fields(), locate)
    case Unparsed => []
  }

  function CategoryOf(reply: Reply): Option<Category> {
    match reply
    case Parsed(_, category) => category
    case Unparsed => None
  }

  /** A reply that does not parse is recorded as such, with nothing kept and nothing repaired. */
  method AnalyzeReply(reply: Reply, article: ArticleText, locate: Locator) returns (analysis: Analysis)
    requires InBounds(locate)
    ensures analysis.parsed == reply.Parsed?
    ensures analysis.category == CategoryOf(reply)
    ensures analysis.findings == KeptFindings(reply, article, locate)
    ensures analysis.rejected == RejectedQuotes(reply, article, locate)
  {
    match reply
    case Parsed(findings, category) =>
      var verified, rejected := VerifyQuotes(findings, article, locate);
      analysis := Analysis(true, category, verified, rejected);
    case Unparsed =>
      analysis := Analysis(false, None, [], []);
  }

  // ---------------------------------------------------------------------------
  // What a reply leaves behind
  // ---------------------------------------------------------------------------

  /** A quote is rejected exactly when no field has it; an article's fields are its title and a present lead. */
  lemma {:induction false} VerdictIff(finding: ModelFinding, fields: seq<(Field, Text)>, locate: Locator)
    requires InBounds(locate)
    ensures Verdict(finding, fields, locate).None?
            <==> forall entry :: entry in fields ==> locate(finding.quote, entry.1).None?
  {
    if fields != [] {
      VerdictIff(finding, fields[1..], locate);
      assert fields == [fields[0]] + fields[1..];
    }
  }

  lemma {:induction false} VerdictGenuine(
    finding: ModelFinding, fields: seq<(Field, Text)>, article: ArticleText, locate: Locator
  )
    requires InBounds(locate)
    requires forall entry :: entry in fields ==> article.Of(entry.0) == Some(entry.1)
    ensures var verdict := Verdict(finding, fields, locate);
            verdict.Some? ==> Genuine(verdict.value, article)
  {
    if fields != [] {
      assert fields[0] in fields;
      VerdictGenuine(finding, fields[1..], article, locate);
    }
  }

  /** Everything kept quotes the article itself, whatever the model sent. */
  lemma {:induction false} VerifiedGenuine(findings: seq<ModelFinding>, article: ArticleText, locate: Locator)
    requires InBounds(locate)
    ensures forall f :: f in Verified(findings, article.Fields(), locate) ==> Genuine(f, article)
  {
    if findings != [] {
      VerifiedGenuine(findings[..|findings| - 1], article, locate);
      VerdictGenuine(findings[|findings| - 1], article.Fields(), article, locate);
    }
  }

  function FuzzyCount(findings: seq<VerifiedFinding>): nat {
    if findings == [] then 0
    else FuzzyCount(findings[..|findings| - 1]) + if findings[|findings| - 1].fuzzy then 1 else 0
  }

  lemma {:induction false} FuzzyAtMostAll(findings: seq<VerifiedFinding>)
    ensures FuzzyCount(findings) <= |findings|
  {
    if findings != [] {
      FuzzyAtMostAll(findings[..|findings| - 1]);
    }
  }

  /** Each quote is kept or rejected, never both or neither; so the stored counts are consistent. */
  lemma {:induction false} QuotesAccountedFor(findings: seq<ModelFinding>, fields: seq<(Field, Text)>, locate: Locator)
    requires InBounds(locate)
    ensures var verified, rejected := Verified(findings, fields, locate), Rejected(findings, fields, locate);
            && |verified| + |rejected| == |findings|
            && |rejected| + FuzzyCount(verified) <= |findings|
  {
    FuzzyAtMostAll(Verified(findings, fields, locate));
    if findings != [] {
      QuotesAccountedFor(findings[..|findings| - 1], fields, locate);
    }
  }

  // ---------------------------------------------------------------------------
  // What is kept of each finding
  // ---------------------------------------------------------------------------

  /** Field `f` is the first of the fields that has the quote. */
  ghost predicate FirstFieldWith(quote: Text, fields: seq<(Field, Text)>, locate: Locator, f: nat) {
    && f < |fields| && locate(quote, fields[f].1).Some?
    && forall g :: 0 <= g < f ==> locate(quote, fields[g].1).None?
  }

  ghost predicate SomeFieldHas(quote: Text, fields: seq<(Field, Text)>, locate: Locator) {
    exists f: nat :: FirstFieldWith(quote, fields, locate, f)
  }

  /** The model's technique and confidence, and from the first field with the quote what the locator answered there. */
  ghost predicate KeptFrom(finding: ModelFinding, v: VerifiedFinding, fields: seq<(Field, Text)>, locate: Locator)
    requires InBounds(locate)
  {
    exists f: nat :: FirstFieldWith(finding.quote, fields, locate, f) && KeptAt(finding, v, fields, locate, f)
  }

  ghost predicate KeptAt(
    finding: ModelFinding, v: VerifiedFinding, fields: seq<(Field, Text)>, locate: Locator, f: nat
  )
    requires InBounds(locate) && FirstFieldWith(finding.quote, fields, locate, f)
  {
    var (name, text) := fields[f];
    var m := locate(finding.quote, text).value;
    && v.technique == finding.technique && v.confidence == finding.confidence
    && v.field == name && v.start == m.start && v.end == m.end && v.fuzzy == m.fuzzy
    && v.quote == text[m.start..m.end]
  }

  lemma {:induction false} VerdictKeeps(finding: ModelFinding, fields: seq<(Field, Text)>, locate: Locator)
    requires InBounds(locate)
    ensures var verdict := Verdict(finding, fields, locate);
            && (verdict.Some? <==> SomeFieldHas(finding.quote, fields, locate))
            && (verdict.Some? ==> KeptFrom(finding, verdict.value, fields, locate))
  {
    if fields != [] {
      var rest := fields[1..];
      VerdictKeeps(finding, rest, locate);
      if locate(finding.quote, fields[0].1).Some? {
        assert FirstFieldWith(finding.quote, fields, locate, 0);
        assert KeptAt(finding, Verdict(finding, fields, locate).value, fields, locate, 0);
      } else {
        if Verdict(finding, fields, locate).Some? {
          var f: nat :|
            FirstFieldWith(finding.quote, rest, locate, f)
            && KeptAt(finding, Verdict(finding, rest, locate).value, rest, locate, f);
          assert FirstFieldWith(finding.quote, fields, locate, f + 1);
          assert KeptAt(finding, Verdict(finding, fields, locate).value, fields, locate, f + 1);
        }
        if SomeFieldHas(finding.quote, fields, locate) {
          var f: nat :| FirstFieldWith(finding.quote, fields, locate, f);
          assert FirstFieldWith(finding.quote, rest, locate, f - 1);
        }
      }
    }
  }

  /** For each finding, whether some field has its quote. */
  ghost function Located(findings: seq<ModelFinding>, fields: seq<(Field, Text)>, locate: Locator): (flags: seq<bool>)
    ensures |flags| == |findings|
  {
    if findings == [] then []
    else
      var n := |findings| - 1;
      Located(findings[..n], fields, locate) + [SomeFieldHas(findings[n].quote, fields, locate)]
  }

  lemma {:induction false} LocatedAt(findings: seq<ModelFinding>, fields: seq<(Field, Text)>, locate: Locator, k: nat)
    requires k < |findings|
    ensures Located(findings, fields, locate)[k] == SomeFieldHas(findings[k].quote, fields, locate)
  {
    if k < |findings| - 1 {
      LocatedAt(findings[..|findings| - 1], fields, locate, k);
    }
  }

  /** The i-th finding kept is that of the reply at position `kept[i]`. */
  ghost predicate KeptFromEach(
    findings: seq<ModelFinding>, kept: seq<nat>, verified: seq<VerifiedFinding>,
    fields: seq<(Field, Text)>, locate: Locator
  )
    requires InBounds(locate)
  {
    && |verified| == |kept|
    && (forall i :: 0 <= i < |kept| ==>
          kept[i] < |findings| && KeptFrom(findings[kept[i]], verified[i], fields, locate))
  }

  lemma KeptOneMore(
    init: seq<ModelFinding>, last: ModelFinding, kept: seq<nat>, verified: seq<VerifiedFinding>,
    fields: seq<(Field, Text)>, locate: Locator
  )
    requires InBounds(locate) && KeptFromEach(init, kept, verified, fields, locate)
    ensures KeptFromEach(init + [last], kept, verified, fields, locate)
    ensures forall v :: KeptFrom(last, v, fields, locate) ==>
              KeptFromEach(init + [last], kept + [|init|], verified + [v], fields, locate)
  {
    assert forall i :: 0 <= i < |kept| ==> (init + [last])[kept[i]] == init[kept[i]];
  }

  /**
   * What is kept, by position in the reply: in order, the findings that some field has, each as
   * the model reported it and the locator placed it in the first such field.
   */
  lemma {:induction false} KeptInOrder(findings: seq<ModelFinding>, fields: seq<(Field, Text)>, locate: Locator)
    returns (kept: seq<nat>)
    requires InBounds(locate)
    ensures ArePositions(kept, Located(findings, fields, locate), true)
    ensures KeptFromEach(findings, kept, Verified(findings, fields, locate), fields, locate)
  {
    if findings == [] {
      kept := [];
    } else {
      var n := |findings| - 1;
      var init, last := findings[..n], findings[n];
      kept := KeptInOrder(init, fields, locate);
      VerdictKeeps(last, fields, locate);
      OneFlagMore(kept, Located(init, fields, locate), SomeFieldHas(last.quote, fields, locate), true);
      KeptOneMore(init, last, kept, Verified(init, fields, locate), fields, locate);
      assert findings == init + [last];
      if SomeFieldHas(last.quote, fields, locate) {
        kept := kept + [n];
      }
    }
  }

  /** What is rejected: in order, the quotes of the findings that no field has. */
  lemma {:induction false} LostInOrder(findings: seq<ModelFinding>, fields: seq<(Field, Text)>, locate: Locator)
    returns (lost: seq<nat>)
    requires InBounds(locate)
    ensures ArePositions(lost, Located(findings, fields, locate), false)
    ensures |Rejected(findings, fields, locate)| == |lost|
    ensures forall j :: 0 <= j < |lost| ==> Rejected(findings, fields, locate)[j] == findings[lost[j]].quote
  {
    if findings == [] {
      lost := [];
    } else {
      var n := |findings| - 1;
      var init, last := findings[..n], findings[n];
      lost := LostInOrder(init, fields, locate);
      VerdictKeeps(last, fields, locate);
      OneFlagMore(lost, Located(init, fields, locate), SomeFieldHas(last.quote, fields, locate), false);
      if !SomeFieldHas(last.quote, fields, locate) {
        lost := lost + [n];
      }
    }
  }

  function FuzzyOnes(verified: seq<VerifiedFinding>): set<nat> {
    set k: nat | k < |verified| && verified[k].fuzzy
  }

  /** The count of fuzzy quotes stored with an analysis is the number of findings so matched. */
  lemma {:induction false} FuzzyCounted(verified: seq<VerifiedFinding>)
    ensures FuzzyCount(verified) == |FuzzyOnes(verified)|
  {
    if verified == [] {
      assert FuzzyOnes(verified) == {};
    } else {
      var n := |verified| - 1;
      FuzzyCounted(verified[..n]);
      assert FuzzyOnes(verified) == FuzzyOnes(verified[..n]) + if verified[n].fuzzy then {n} else {};
    }
  }

  /** A quote the model copied from the headline is kept, exactly, against the headline. */
  lemma CopiedFromTitleIsKept(rules: Rules, align: Aligner, finding: ModelFinding, article: ArticleText, a: nat, b: nat)
    requires Lawful(rules) && Bounded(align)
    requires a <= b <= |article.title| && finding.quote == article.title[a..b] && NonBlank(rules, finding.quote)
    ensures InBounds(QuoteLocator(rules, align))
    ensures var verdict := Verdict(finding, article.Fields(), QuoteLocator(rules, align));
            verdict.Some? && verdict.value.field == Title && !verdict.value.fuzzy
  {
    QuoteLocatorInBounds(rules, align);
    CopiedQuoteIsFound(rules, article.title, align, finding.quote, a, b);
    var locate := QuoteLocator(rules, align);
    assert locate(finding.quote, article.title) == LocateQuote(rules, finding.quote, article.title, align);
    assert article.Fields()[0] == (Title, article.title);
  }

  /** A quote the model copied from the lead is never rejected. */
  lemma CopiedFromLeadIsKept(rules: Rules, align: Aligner, finding: ModelFinding, article: ArticleText, a: nat, b: nat)
    requires Lawful(rules) && Bounded(align)
    requires article.lead.Some? && a <= b <= |article.lead.value|
    requires finding.quote == article.lead.value[a..b] && NonBlank(rules, finding.quote)
    ensures InBounds(QuoteLocator(rules, align))
    ensures Verdict(finding, article.Fields(), QuoteLocator(rules, align)).Some?
  {
    QuoteLocatorInBounds(rules, align);
    CopiedQuoteIsFound(rules, article.lead.value, align, finding.quote, a, b);
    var locate := QuoteLocator(rules, align);
    assert locate(finding.quote, article.lead.value) == LocateQuote(rules, finding.quote, article.lead.value, align);
    VerdictIff(finding, article.Fields(), locate);
    assert (Lead, article.lead.value) == article.Fields()[1];
  }
}

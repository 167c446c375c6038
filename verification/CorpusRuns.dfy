/**
 * Everything that writes the corpus, interleaved. Any number of analyser passes and evaluation
 * sweeps may have a call in flight; each database call is one step; a writer may crash between
 * any two of its steps. The five integrity checks hold in every state such a run can reach.
 */
module CorpusRuns {
  import opened Wrappers
  import opened Typography
  import opened Validator
  import opened Analyze
  import opened Corpus

  /**
   * One article on its way through a writer: the text it read, then the analysis row it wrote,
   * then the findings. `marks` tells the analyser, which updates the queue, from the evaluation
   * sweep, which does not.
   */
  datatype Job =
    | Asked(article: nat, seen: ArticleText, marks: bool)
    | RowWritten(article: nat, seen: ArticleText, marks: bool, analysis: nat, reply: Reply)
    | FindingsWritten(article: nat, analysis: nat, reply: Reply)

  datatype System = System(db: Db, jobs: map<nat, Job>)

  const INITIAL: System := System(EMPTY, map[])

  datatype Step =
    | SaveArticles(rows: seq<NewArticle>)
    | Load(job: nat, article: nat, withLead: bool, marks: bool)
    | WriteRow(job: nat, reply: Reply)
    | WriteFindings(job: nat)
    | Mark(job: nat)
    | Charge(ids: set<nat>, now: int)
    | Crash(job: nat)
    | RequeueStale(stale: set<nat>)
    | ClearGold(ids: set<nat>)
    | InsertGold(ids: set<nat>)

  predicate Enabled(s: System, step: Step) {
    match step
    case SaveArticles(_) => true
    case Load(job, article, _, _) => job !in s.jobs && article < |s.db.articles|
    case WriteRow(job, _) => job in s.jobs && s.jobs[job].Asked?
    case WriteFindings(job) => job in s.jobs && s.jobs[job].RowWritten?
    case Mark(job) => job in s.jobs && s.jobs[job].FindingsWritten?
    case Charge(_, _) => true
    case Crash(job) => job in s.jobs
    case RequeueStale(_) => true
    case ClearGold(_) => true
    case InsertGold(ids) => forall id :: id in ids ==> id < |s.db.articles|
  }

  /** The text a writer reads: the evaluation's headline-only arm leaves the lead out. */
  function Seen(text: ArticleText, withLead: bool): ArticleText {
    if withLead then text else ArticleText(text.title, None)
  }

  function Next(s: System, step: Step, locate: Locator): System
    requires InBounds(locate)
    requires Enabled(s, step)
  {
    var db := s.db;
    match step
    case SaveArticles(rows) => s.(db := db.(articles := InsertAll(db.articles, rows)))
    case Load(job, article, withLead, marks) =>
      s.(jobs := s.jobs[job := Asked(article, Seen(db.articles[article].text, withLead), marks)])
    case WriteRow(job, reply) =>
      var j := s.jobs[job];
      System(
        db.(analyses := db.analyses + [AnalysisRow(j.article, reply.Parsed?)]),
        s.jobs[job := RowWritten(j.article, j.seen, j.marks, |db.analyses|, reply)])
    case WriteFindings(job) =>
      var j := s.jobs[job];
      System(
        db.(findings := db.findings + FindingRows(j.analysis, KeptFindings(j.reply, j.seen, locate))),
        if j.marks then s.jobs[job := FindingsWritten(j.article, j.analysis, j.reply)] else s.jobs - {job})
    case Mark(job) =>
      var j := s.jobs[job];
      var (status, category) := Outcome(j.reply.Parsed?, CategoryOf(j.reply));
      System(
        db.(articles := MarkAnalyzed(db.articles, j.article, status, category)),
        s.jobs - {job})
    case Charge(ids, now) => s.(db := db.(articles := BumpAttempts(db.articles, ids, now)))
    case Crash(job) => s.(jobs := s.jobs - {job})
    case RequeueStale(stale) => s.(db := db.(articles := Requeue(db, stale)))
    case ClearGold(ids) => s.(db := db.(gold := db.gold - ids))
    case InsertGold(ids) => s.(db := db.(gold := db.gold + ids))
  }

  /** The state after a sequence of steps; a step that is not enabled does not happen. */
  function Run(s: System, steps: seq<Step>, locate: Locator): System
    requires InBounds(locate)
    decreases |steps|
  {
    if steps == [] then s
    else
      var n := |steps| - 1;
      var earlier := Run(s, steps[..n], locate);
      if Enabled(earlier, steps[n]) then Next(earlier, steps[n], locate) else earlier
  }

  // ---------------------------------------------------------------------------
  // The invariant
  // ---------------------------------------------------------------------------

  ghost predicate ReadFrom(seen: ArticleText, text: ArticleText) {
    seen.title == text.title && (seen.lead == text.lead || seen.lead == None)
  }

  /** What a writer holds still describes the tables, however long it has been away. */
  ghost predicate JobSound(db: Db, job: Job) {
    && job.article < |db.articles|
    && match job
       case Asked(article, seen, _) => ReadFrom(seen, db.articles[article].text)
       case RowWritten(article, seen, _, analysis, _) =>
         && ReadFrom(seen, db.articles[article].text)
         && analysis < |db.analyses| && db.analyses[analysis].article == article
       case FindingsWritten(article, analysis, _) =>
         analysis < |db.analyses| && db.analyses[analysis].article == article
  }

  ghost predicate Invariant(s: System) {
    && Sound(s.db)
    && forall j :: j in s.jobs ==> JobSound(s.db, s.jobs[j])
  }

  lemma GenuineInWhole(f: VerifiedFinding, seen: ArticleText, text: ArticleText)
    requires ReadFrom(seen, text) && Genuine(f, seen)
    ensures Genuine(f, text)
  {
  }

  lemma JobStaysSound(before: Db, after: Db, job: Job)
    requires Extends(before, after) && JobSound(before, job)
    ensures JobSound(after, job)
  {
    assert SameIdentity(before.articles[job.article], after.articles[job.article]);
    if !job.Asked? {
      assert after.analyses[job.analysis] == before.analyses[job.analysis];
    }
  }

  /** A database that extends a sound one is sound if what it changed is. */
  lemma ExtensionSound(before: Db, after: Db)
    requires Sound(before) && Extends(before, after)
    requires UniqueHashes(after.articles)
    requires forall k :: |before.analyses| <= k < |after.analyses| ==> after.analyses[k].article < |after.articles|
    requires forall i :: |before.findings| <= i < |after.findings| ==> RowSound(after, after.findings[i])
    requires forall i :: 0 <= i < |after.articles| ==> Live(after.articles[i])
    requires forall i :: 0 <= i < |after.articles| && after.articles[i].status == Analyzed ==>
               HasAnalysis(after, i) || (i < |before.articles| && before.articles[i].status == Analyzed)
    ensures Sound(after)
  {
    forall k | 0 <= k < |after.analyses|
      ensures after.analyses[k].article < |after.articles|
    {
      assert k < |before.analyses| ==> after.analyses[k] == before.analyses[k];
    }
    forall i | 0 <= i < |after.findings|
      ensures RowSound(after, after.findings[i])
    {
      if i < |before.findings| {
        assert after.findings[i] == before.findings[i];
        RowStaysSound(before, after, before.findings[i]);
      }
    }
    forall i | 0 <= i < |after.articles| && after.articles[i].status == Analyzed
      ensures HasAnalysis(after, i)
    {
      if i < |before.articles| && before.articles[i].status == Analyzed {
        AnalysisStays(before, after, i);
      }
    }
  }

  /** Steps that touch only the articles already stored, and leave their identity alone. */
  lemma ArticlesUpdated(db: Db, articles: seq<Article>)
    requires Sound(db) && |articles| == |db.articles|
    requires forall i :: 0 <= i < |articles| ==> SameIdentity(db.articles[i], articles[i]) && Live(articles[i])
    requires forall i :: 0 <= i < |articles| && articles[i].status == Analyzed ==>
               db.articles[i].status == Analyzed || HasAnalysis(db, i)
    ensures Sound(db.(articles := articles)) && Extends(db, db.(articles := articles))
  {
    var after := db.(articles := articles);
    forall i, j | 0 <= i < j < |articles|
      ensures articles[i].urlHash != articles[j].urlHash
    {
      assert SameIdentity(db.articles[i], articles[i]) && SameIdentity(db.articles[j], articles[j]);
    }
    forall i | 0 <= i < |articles| && HasAnalysis(db, i)
      ensures HasAnalysis(after, i)
    {
      AnalysisStays(db, after, i);
    }
    ExtensionSound(db, after);
  }

  lemma SaveArticlesSound(db: Db, rows: seq<NewArticle>)
    requires Sound(db)
    ensures var after := db.(articles := InsertAll(db.articles, rows)); Sound(after) && Extends(db, after)
  {
    InsertAllKeeps(db.articles, rows);
    var after := db.(articles := InsertAll(db.articles, rows));
    forall i | 0 <= i < |after.articles|
      ensures Live(after.articles[i])
      ensures after.articles[i].status == Analyzed ==> i < |db.articles| && db.articles[i].status == Analyzed
    {
      assert i < |db.articles| ==> after.articles[i] == db.articles[i];
    }
    ExtensionSound(db, after);
  }

  lemma WriteRowSound(db: Db, article: nat, parsed: bool)
    requires Sound(db) && article < |db.articles|
    ensures var after := db.(analyses := db.analyses + [AnalysisRow(article, parsed)]);
            Sound(after) && Extends(db, after)
  {
    ExtensionSound(db, db.(analyses := db.analyses + [AnalysisRow(article, parsed)]));
  }

  lemma WriteFindingsSound(db: Db, job: Job, locate: Locator)
    requires InBounds(locate) && Sound(db) && job.RowWritten? && JobSound(db, job)
    ensures var rows := FindingRows(job.analysis, KeptFindings(job.reply, job.seen, locate));
            var after := db.(findings := db.findings + rows);
            Sound(after) && Extends(db, after)
  {
    var kept := KeptFindings(job.reply, job.seen, locate);
    var rows := FindingRows(job.analysis, kept);
    var after := db.(findings := db.findings + rows);
    if job.reply.Parsed? {
      VerifiedGenuine(job.reply.findings, job.seen, locate);
    }
    forall i | |db.findings| <= i < |after.findings|
      ensures RowSound(after, after.findings[i])
    {
      var f := kept[i - |db.findings|];
      assert f in kept;
      GenuineInWhole(f, job.seen, db.articles[job.article].text);
    }
    ExtensionSound(db, after);
  }

  lemma MarkSound(db: Db, job: Job)
    requires Sound(db) && job.FindingsWritten? && JobSound(db, job)
    ensures var (status, category) := Outcome(job.reply.Parsed?, CategoryOf(job.reply));
            var after := db.(articles := MarkAnalyzed(db.articles, job.article, status, category));
            Sound(after) && Extends(db, after)
  {
    var (status, category) := Outcome(job.reply.Parsed?, CategoryOf(job.reply));
    assert HasAnalysis(db, job.article);
    ArticlesUpdated(db, MarkAnalyzed(db.articles, job.article, status, category));
  }

  lemma StepExtends(s: System, step: Step, locate: Locator)
    requires InBounds(locate) && Invariant(s) && Enabled(s, step)
    ensures Sound(Next(s, step, locate).db) && Extends(s.db, Next(s, step, locate).db)
  {
    var db := s.db;
    match step
    case SaveArticles(rows) => SaveArticlesSound(db, rows);
    case Load(_, _, _, _) =>
    case WriteRow(job, reply) => WriteRowSound(db, s.jobs[job].article, reply.Parsed?);
    case WriteFindings(job) => WriteFindingsSound(db, s.jobs[job], locate);
    case Mark(job) => MarkSound(db, s.jobs[job]);
    case Charge(ids, now) => ArticlesUpdated(db, BumpAttempts(db.articles, ids, now));
    case Crash(_) =>
    case RequeueStale(stale) => ArticlesUpdated(db, Requeue(db, stale));
    case ClearGold(ids) => ExtensionSound(db, db.(gold := db.gold - ids));
    case InsertGold(ids) => ExtensionSound(db, db.(gold := db.gold + ids));
  }

  lemma NewJobSound(s: System, step: Step, locate: Locator, j: nat)
    requires InBounds(locate) && Invariant(s) && Enabled(s, step)
    requires j in Next(s, step, locate).jobs
    requires j !in s.jobs || Next(s, step, locate).jobs[j] != s.jobs[j]
    ensures JobSound(Next(s, step, locate).db, Next(s, step, locate).jobs[j])
  {
  }

  lemma StepKeepsInvariant(s: System, step: Step, locate: Locator)
    requires InBounds(locate) && Invariant(s) && Enabled(s, step)
    ensures Invariant(Next(s, step, locate))
  {
    var after := Next(s, step, locate);
    StepExtends(s, step, locate);
    forall j | j in after.jobs
      ensures JobSound(after.db, after.jobs[j])
    {
      if j in s.jobs && after.jobs[j] == s.jobs[j] {
        JobStaysSound(s.db, after.db, s.jobs[j]);
      } else {
        NewJobSound(s, step, locate, j);
      }
    }
  }

  lemma {:induction false} RunKeepsInvariant(s: System, steps: seq<Step>, locate: Locator)
    requires InBounds(locate) && Invariant(s)
    ensures Invariant(Run(s, steps, locate))
    ensures Extends(s.db, Run(s, steps, locate).db)
    decreases |steps|
  {
    if steps != [] {
      var n := |steps| - 1;
      RunKeepsInvariant(s, steps[..n], locate);
      var earlier := Run(s, steps[..n], locate);
      if Enabled(earlier, steps[n]) {
        StepExtends(earlier, steps[n], locate);
        StepKeepsInvariant(earlier, steps[n], locate);
        ExtendsTransitive(s.db, earlier.db, Next(earlier, steps[n], locate).db);
      }
    }
  }

  /** Every reachable database passes the audit. */
  lemma AuditAlwaysPasses(steps: seq<Step>, locate: Locator)
    requires InBounds(locate)
    ensures AuditPasses(Run(INITIAL, steps, locate).db)
  {
    RunKeepsInvariant(INITIAL, steps, locate);
    SoundPassesAudit(Run(INITIAL, steps, locate).db);
  }

  /** With the quote locator the program uses, whatever its fuzzy aligner answers within bounds. */
  lemma AuditPassesWithQuoteLocator(steps: seq<Step>, rules: Rules, align: Aligner)
    requires Lawful(rules) && Bounded(align)
    ensures InBounds(QuoteLocator(rules, align))
    ensures AuditPasses(Run(INITIAL, steps, QuoteLocator(rules, align)).db)
  {
    QuoteLocatorInBounds(rules, align);
    AuditAlwaysPasses(steps, QuoteLocator(rules, align));
  }

  lemma {:induction false} RunSplit(s: System, first: seq<Step>, more: seq<Step>, locate: Locator)
    requires InBounds(locate)
    ensures Run(s, first + more, locate) == Run(Run(s, first, locate), more, locate)
    decreases |more|
  {
    if more == [] {
      assert first + more == first;
    } else {
      var n := |more| - 1;
      assert (first + more)[..|first| + n] == first + more[..n];
      RunSplit(s, first, more[..n], locate);
    }
  }

  /**
   * Stored offsets stay valid for ever: a finding stored at some point is there, unchanged, in
   * every later state, and still quotes the text of its article at its offsets.
   */
  lemma FindingsStayValid(first: seq<Step>, more: seq<Step>, locate: Locator, i: nat)
    requires InBounds(locate)
    requires i < |Run(INITIAL, first, locate).db.findings|
    ensures var before, after := Run(INITIAL, first, locate).db, Run(INITIAL, first + more, locate).db;
            && i < |after.findings| && after.findings[i] == before.findings[i]
            && ArticleOf(before, before.findings[i]).Some?
            && ArticleOf(after, after.findings[i]).Some?
            && ArticleOf(after, after.findings[i]).value.text == ArticleOf(before, before.findings[i]).value.text
            && Genuine(after.findings[i].finding, ArticleOf(after, after.findings[i]).value.text)
  {
    var s := Run(INITIAL, first, locate);
    RunSplit(INITIAL, first, more, locate);
    RunKeepsInvariant(INITIAL, first, locate);
    RunKeepsInvariant(s, more, locate);
    var after := Run(s, more, locate).db;
    var row := s.db.findings[i];
    assert RowSound(s.db, row);
    assert after.findings[i] == row;
    RowStaysSound(s.db, after, row);
    var id := s.db.analyses[row.analysis].article;
    assert after.analyses[row.analysis] == s.db.analyses[row.analysis];
    assert SameIdentity(s.db.articles[id], after.articles[id]);
  }

  /** The headline-only arm finds nothing in a lead it was not shown; any other is shown the whole article. */
  lemma {:induction false} HeadlineOnly(findings: seq<ModelFinding>, text: ArticleText, locate: Locator)
    requires InBounds(locate)
    ensures forall f :: f in Verified(findings, Seen(text, false).Fields(), locate) ==> f.field == Title
    ensures Seen(text, true) == text
  {
    if findings != [] {
      var last := findings[|findings| - 1];
      HeadlineOnly(findings[..|findings| - 1], text, locate);
      assert Seen(text, false).Fields() == [(Title, text.title)];
      assert [(Title, text.title)][1..] == [];
      assert Verdict(last, [], locate) == None;
    }
  }
}

/**
 * What passes over the queue add up to: who is charged, that the queue drains, that retries are
 * spaced, and that a pass is one of the runs the corpus invariants cover.
 */
module QueueRuns {
  import opened Wrappers
  import opened Analyze
  import opened Corpus
  import opened Queue
  import opened CorpusRuns

  // ---------------------------------------------------------------------------
  // What one pass does to one article
  // ---------------------------------------------------------------------------

  ghost predicate Distinct(ids: seq<nat>) {
    forall i, j :: 0 <= i < j < |ids| ==> ids[i] != ids[j]
  }

  /** The article as a reply leaves it. */
  function Settled(article: Article, reply: Reply): Article {
    var (status, category) := Outcome(reply.Parsed?, CategoryOf(reply));
    Judged(article, status, category)
  }

  lemma CompletedArticles(db: Db, id: nat, reply: Reply, locate: Locator)
    requires InBounds(locate) && id < |db.articles|
    ensures Completed(db, id, reply, locate).articles == db.articles[id := Settled(db.articles[id], reply)]
  {
  }

  /** Saving settles the articles that got a reply, and no others. */
  lemma {:induction false} SavedAt(db: Db, ids: seq<nat>, provider: Provider, locate: Locator, n: nat, i: nat)
    requires InBounds(locate) && n <= |ids| && InRange(db, ids) && Distinct(ids) && i < |ids|
    ensures SaveAll(db, ids, provider, locate, n).articles[ids[i]] ==
            if i < n && !Erred(provider, i) then Settled(db.articles[ids[i]], provider(i).reply)
            else db.articles[ids[i]]
  {
    if n > 0 {
      SavedAt(db, ids, provider, locate, n - 1, i);
      if provider(n - 1).Answered? {
        CompletedArticles(SaveAll(db, ids, provider, locate, n - 1), ids[n - 1], provider(n - 1).reply, locate);
      }
    }
  }

  lemma {:induction false} SavedElsewhere(db: Db, ids: seq<nat>, provider: Provider, locate: Locator, n: nat, id: nat)
    requires InBounds(locate) && n <= |ids| && InRange(db, ids) && id < |db.articles| && id !in ids
    ensures SaveAll(db, ids, provider, locate, n).articles[id] == db.articles[id]
  {
    if n > 0 {
      SavedElsewhere(db, ids, provider, locate, n - 1, id);
    }
  }

  lemma {:induction false} FailedAt(ids: seq<nat>, provider: Provider, n: nat, i: nat)
    requires n <= |ids| && Distinct(ids) && i < |ids|
    ensures ids[i] in Failures(ids, provider, n) <==> i < n && Erred(provider, i)
  {
    if n > 0 {
      FailedAt(ids, provider, n - 1, i);
      assert ids[i] in Failures(ids, provider, n) <==>
             ids[i] in Failures(ids, provider, n - 1) || (Erred(provider, n - 1) && ids[n - 1] == ids[i]);
    }
  }

  lemma {:induction false} FailedElsewhere(ids: seq<nat>, provider: Provider, n: nat, id: nat)
    requires n <= |ids| && id !in ids
    ensures id !in Failures(ids, provider, n)
  {
    if n > 0 {
      FailedElsewhere(ids, provider, n - 1, id);
    }
  }

  /** How many articles of the pass were tried and kept: all, or those before the stop. */
  function Processed(provider: Provider, n: nat): (k: nat)
    ensures k <= n
  {
    match Stop(provider, n) case Some(k) => k case None => n
  }

  lemma PassArticle(db: Db, ids: seq<nat>, provider: Provider, locate: Locator, later: int, id: nat)
    requires InBounds(locate) && InRange(db, ids) && id < |db.articles|
    ensures var saved := SaveAll(db, ids, provider, locate, Processed(provider, |ids|)).articles[id];
            PassResult(db, ids, provider, locate, later).articles[id] ==
            if Stop(provider, |ids|) == None && id in Failures(ids, provider, |ids|) then Charged(saved, later)
            else saved
  {
  }

  /**
   * A pass that is not aborted settles the article of every reply and charges the article of
   * every failure, once; an aborted pass settles the replies before it stopped and charges nobody.
   */
  lemma PassAtArticle(db: Db, ids: seq<nat>, provider: Provider, locate: Locator, later: int, i: nat)
    requires InBounds(locate) && InRange(db, ids) && Distinct(ids) && i < |ids|
    ensures var before, after := db.articles[ids[i]], PassResult(db, ids, provider, locate, later).articles[ids[i]];
            match Stop(provider, |ids|)
            case None =>
              after == if Erred(provider, i) then Charged(before, later) else Settled(before, provider(i).reply)
            case Some(k) => after == if i < k && !Erred(provider, i) then Settled(before, provider(i).reply) else before
  {
    PassArticle(db, ids, provider, locate, later, ids[i]);
    FailedAt(ids, provider, |ids|, i);
    SavedAt(db, ids, provider, locate, Processed(provider, |ids|), i);
  }

  /** Articles a pass did not load are as they were; gold articles are among them. */
  lemma PassElsewhere(db: Db, ids: seq<nat>, provider: Provider, locate: Locator, later: int, id: nat)
    requires InBounds(locate) && InRange(db, ids) && Distinct(ids) && id < |db.articles| && id !in ids
    ensures PassResult(db, ids, provider, locate, later).articles[id] == db.articles[id]
  {
    PassArticle(db, ids, provider, locate, later, id);
    FailedElsewhere(ids, provider, |ids|, id);
    SavedElsewhere(db, ids, provider, locate, Processed(provider, |ids|), id);
  }

  lemma GoldUntouched(db: Db, provider: Provider, locate: Locator, limit: Option<nat>, now: int, later: int, id: nat)
    requires InBounds(locate) && id < |db.articles| && id in db.gold
    ensures id !in Selected(db, now, limit)
    ensures var after := PassResult(db, Selected(db, now, limit), provider, locate, later);
            after.articles[id] == db.articles[id] && after.gold == db.gold
  {
    PassElsewhere(db, Selected(db, now, limit), provider, locate, later, id);
  }

  // ---------------------------------------------------------------------------
  // An outage
  // ---------------------------------------------------------------------------

  ghost predicate Outage(provider: Provider) {
    forall i :: Erred(provider, i)
  }

  lemma {:induction false} OutageSavesNothing(db: Db, ids: seq<nat>, provider: Provider, locate: Locator, n: nat)
    requires InBounds(locate) && n <= |ids| && InRange(db, ids) && Outage(provider)
    ensures SaveAll(db, ids, provider, locate, n) == db
  {
    if n > 0 {
      OutageSavesNothing(db, ids, provider, locate, n - 1);
      assert Erred(provider, n - 1);
    }
  }

  /** The provider is up for the first `m` articles of a pass, no third error in a row there, and then down. */
  ghost predicate DownFrom(provider: Provider, n: nat, m: nat) {
    && m <= n && (m == 0 || !Erred(provider, m - 1)) && Stop(provider, m) == None
    && forall i :: m <= i < n ==> Erred(provider, i)
  }

  /** An outage within a pass stops it at its own third failure, if it lasts that long. */
  lemma StopOfOutage(provider: Provider, n: nat, m: nat)
    requires DownFrom(provider, n, m)
    ensures n - m >= CONSECUTIVE_FAILURE_LIMIT ==> Stop(provider, n) == Some(m + 2)
    ensures n - m < CONSECUTIVE_FAILURE_LIMIT ==> Stop(provider, n) == None
  {
    forall k: nat | k < n && ThirdInARow(provider, k)
      ensures k >= m + 2
    {
      assert m > 0 && k >= m ==> !Erred(provider, m - 1);
    }
    if n - m >= CONSECUTIVE_FAILURE_LIMIT {
      assert ThirdInARow(provider, m + 2);
    }
  }

  /**
   * When the provider goes down within a pass, the articles it failed on are left alone exactly
   * when there are none or at least three. One or two of them are each charged an attempt.
   */
  lemma OutageWithinPassIff(db: Db, ids: seq<nat>, provider: Provider, locate: Locator, later: int, m: nat)
    requires InBounds(locate) && InRange(db, ids) && Distinct(ids) && DownFrom(provider, |ids|, m)
    ensures var after := PassResult(db, ids, provider, locate, later);
            && ((forall i :: m <= i < |ids| ==> after.articles[ids[i]] == db.articles[ids[i]])
                <==> m == |ids| || |ids| - m >= CONSECUTIVE_FAILURE_LIMIT)
            && (0 < |ids| - m < CONSECUTIVE_FAILURE_LIMIT ==>
                  forall i :: m <= i < |ids| ==> after.articles[ids[i]] == Charged(db.articles[ids[i]], later))
  {
    var after := PassResult(db, ids, provider, locate, later);
    StopOfOutage(provider, |ids|, m);
    forall i | m <= i < |ids|
      ensures after.articles[ids[i]] ==
              if |ids| - m >= CONSECUTIVE_FAILURE_LIMIT then db.articles[ids[i]]
              else Charged(db.articles[ids[i]], later)
    {
      PassAtArticle(db, ids, provider, locate, later, i);
      assert Erred(provider, i);
    }
    if 0 < |ids| - m < CONSECUTIVE_FAILURE_LIMIT {
      assert after.articles[ids[m]].attempts == db.articles[ids[m]].attempts + 1;
    }
  }

  /** A pass met with an outage from its first call changes nothing at all under the same condition. */
  lemma OutageChargesNobodyIff(db: Db, ids: seq<nat>, provider: Provider, locate: Locator, later: int)
    requires InBounds(locate) && InRange(db, ids) && Distinct(ids) && Outage(provider)
    ensures PassResult(db, ids, provider, locate, later) == db
            <==> ids == [] || |ids| >= CONSECUTIVE_FAILURE_LIMIT
    ensures 0 < |ids| < CONSECUTIVE_FAILURE_LIMIT ==>
              forall i :: 0 <= i < |ids| ==>
                PassResult(db, ids, provider, locate, later).articles[ids[i]] == Charged(db.articles[ids[i]], later)
  {
    var stop := Stop(provider, |ids|);
    StopOfOutage(provider, |ids|, 0);
    OutageWithinPassIff(db, ids, provider, locate, later, 0);
    if stop.Some? {
      OutageSavesNothing(db, ids, provider, locate, stop.value);
    } else if ids == [] {
      assert Failures(ids, provider, 0) == [];
      ChargingNobody(db.articles, later);
    }
  }

  /** One pass as it was run: when it loads, when it charges, its limit and the answers it got. */
  datatype PassRun = PassRun(now: int, later: int, limit: Option<nat>, provider: Provider)

  function PassAt(db: Db, run: PassRun, locate: Locator): Db
    requires InBounds(locate)
  {
    PassResult(db, Selected(db, run.now, run.limit), run.provider, locate, run.later)
  }

  function Passes(db: Db, runs: seq<PassRun>, locate: Locator): Db
    requires InBounds(locate)
    decreases |runs|
  {
    if runs == [] then db else Passes(PassAt(db, runs[0], locate), runs[1..], locate)
  }

  /** However long the provider is down, a queue with three or more due articles loses nothing. */
  lemma {:induction false} LongOutageChangesNothing(db: Db, runs: seq<PassRun>, locate: Locator)
    requires InBounds(locate)
    requires forall r :: r in runs ==> Outage(r.provider) && |Selected(db, r.now, r.limit)| >= CONSECUTIVE_FAILURE_LIMIT
    ensures Passes(db, runs, locate) == db
    decreases |runs|
  {
    if runs != [] {
      var r := runs[0];
      assert r in runs;
      OutageChargesNobodyIff(db, Selected(db, r.now, r.limit), r.provider, locate, r.later);
      LongOutageChangesNothing(db, runs[1..], locate);
    }
  }

  // ---------------------------------------------------------------------------
  // The queue drains
  // ---------------------------------------------------------------------------

  /** Attempts the queue still has to spend on one article. */
  function Remaining(db: Db, id: nat): int
    requires id < |db.articles|
  {
    if db.articles[id].status == Pending && id !in db.gold then MAX_ATTEMPTS - db.articles[id].attempts else 0
  }

  function Budget(db: Db, n: nat): int
    requires n <= |db.articles|
  {
    if n == 0 then 0 else Budget(db, n - 1) + Remaining(db, n - 1)
  }

  ghost predicate AllLive(db: Db) {
    forall i :: 0 <= i < |db.articles| ==> Live(db.articles[i])
  }

  lemma {:induction false} BudgetBounds(db: Db, n: nat)
    requires n <= |db.articles| && AllLive(db)
    ensures 0 <= Budget(db, n) <= MAX_ATTEMPTS * n
  {
    if n > 0 {
      BudgetBounds(db, n - 1);
      assert Live(db.articles[n - 1]);
    }
  }

  /** How many of an ascending list of ids lie below `n`. */
  function CountBelow(ids: seq<nat>, n: nat): nat {
    if ids == [] then 0
    else CountBelow(ids[..|ids| - 1], n) + if ids[|ids| - 1] < n then 1 else 0
  }

  lemma {:induction false} CountBelowStep(ids: seq<nat>, n: nat)
    requires Distinct(ids)
    ensures CountBelow(ids, n + 1) == CountBelow(ids, n) + if n in ids then 1 else 0
  {
    if ids != [] {
      var last := |ids| - 1;
      CountBelowStep(ids[..last], n);
      assert ids == ids[..last] + [ids[last]];
      if n in ids[..last] {
        var i :| 0 <= i < last && ids[..last][i] == n;
        assert ids[i] != ids[last];
      }
    }
  }

  lemma {:induction false} CountBelowEdges(ids: seq<nat>, n: nat)
    ensures CountBelow(ids, 0) == 0
    ensures (forall i :: 0 <= i < |ids| ==> ids[i] < n) ==> CountBelow(ids, n) == |ids|
  {
    if ids != [] {
      CountBelowEdges(ids[..|ids| - 1], n);
    }
  }

  lemma PassKeepsLive(db: Db, ids: seq<nat>, provider: Provider, locate: Locator, later: int, id: nat)
    requires InBounds(locate) && InRange(db, ids) && Distinct(ids) && id < |db.articles| && Live(db.articles[id])
    ensures Live(PassResult(db, ids, provider, locate, later).articles[id])
  {
    if id in ids {
      var i :| 0 <= i < |ids| && ids[i] == id;
      PassAtArticle(db, ids, provider, locate, later, i);
    } else {
      PassElsewhere(db, ids, provider, locate, later, id);
    }
  }

  lemma PassSpendsAt(db: Db, ids: seq<nat>, provider: Provider, locate: Locator, now: int, later: int, id: nat)
    requires InBounds(locate) && InRange(db, ids) && Distinct(ids) && id < |db.articles| && Live(db.articles[id])
    requires forall i :: 0 <= i < |ids| ==> IsDue(db, ids[i], now)
    requires Stop(provider, |ids|) == None
    ensures Remaining(PassResult(db, ids, provider, locate, later), id) + (if id in ids then 1 else 0)
            <= Remaining(db, id)
  {
    if id in ids {
      var i :| 0 <= i < |ids| && ids[i] == id;
      PassAtArticle(db, ids, provider, locate, later, i);
    } else {
      PassElsewhere(db, ids, provider, locate, later, id);
    }
  }

  /** Where each listed article costs an attempt, and none gains any, the list is paid for. */
  lemma {:induction false} AttemptsSpent(before: Db, after: Db, ids: seq<nat>, n: nat)
    requires Distinct(ids) && n <= |before.articles| == |after.articles|
    requires forall id :: 0 <= id < n ==> Remaining(after, id) + (if id in ids then 1 else 0) <= Remaining(before, id)
    ensures Budget(after, n) + CountBelow(ids, n) <= Budget(before, n)
  {
    if n == 0 {
      CountBelowEdges(ids, 0);
    } else {
      AttemptsSpent(before, after, ids, n - 1);
      CountBelowStep(ids, n - 1);
    }
  }

  /** A pass that is not aborted spends at least one attempt of every due article's budget. */
  lemma PassLowersBudget(db: Db, run: PassRun, locate: Locator)
    requires InBounds(locate) && AllLive(db)
    requires Stop(run.provider, |Selected(db, run.now, run.limit)|) == None
    ensures var after := PassAt(db, run, locate);
            && |after.articles| == |db.articles| && AllLive(after)
            && Budget(after, |db.articles|) + |Selected(db, run.now, run.limit)| <= Budget(db, |db.articles|)
  {
    var ids := Selected(db, run.now, run.limit);
    var after := PassAt(db, run, locate);
    forall id | 0 <= id < |db.articles|
      ensures Live(after.articles[id])
      ensures Remaining(after, id) + (if id in ids then 1 else 0) <= Remaining(db, id)
    {
      PassKeepsLive(db, ids, run.provider, locate, run.later, id);
      PassSpendsAt(db, ids, run.provider, locate, run.now, run.later, id);
    }
    AttemptsSpent(db, after, ids, |db.articles|);
    CountBelowEdges(ids, |db.articles|);
  }

  /** Every pass of the sequence had something due and was not aborted. */
  ghost predicate AllProductive(db: Db, runs: seq<PassRun>, locate: Locator)
    requires InBounds(locate)
    decreases |runs|
  {
    runs != [] ==>
      var ids := Selected(db, runs[0].now, runs[0].limit);
      && ids != [] && Stop(runs[0].provider, |ids|) == None
      && AllProductive(PassAt(db, runs[0], locate), runs[1..], locate)
  }

  /** With nothing added or requeued, the passes that do any work number at most 3 x articles. */
  lemma {:induction false} QueueDrains(db: Db, runs: seq<PassRun>, locate: Locator)
    requires InBounds(locate) && AllLive(db) && AllProductive(db, runs, locate)
    ensures |runs| <= Budget(db, |db.articles|) <= MAX_ATTEMPTS * |db.articles|
    decreases |runs|
  {
    BudgetBounds(db, |db.articles|);
    if runs != [] {
      PassLowersBudget(db, runs[0], locate);
      QueueDrains(PassAt(db, runs[0], locate), runs[1..], locate);
    }
  }

  // ---------------------------------------------------------------------------
  // A pass is one of the interleavings
  // ---------------------------------------------------------------------------

  /** The four steps of one saved article. */
  function ArticleSteps(id: nat, reply: Reply): seq<Step> {
    [Load(0, id, true, true), WriteRow(0, reply), WriteFindings(0), Mark(0)]
  }

  /** The steps that save and settle the first `n` articles of a pass. */
  function SaveSteps(ids: seq<nat>, provider: Provider, n: nat): seq<Step>
    requires n <= |ids|
  {
    if n == 0 then []
    else
      SaveSteps(ids, provider, n - 1) +
      match provider(n - 1)
      case ProviderError => []
      case Answered(reply) => ArticleSteps(ids[n - 1], reply)
  }

  function PassSteps(ids: seq<nat>, provider: Provider, later: int): seq<Step> {
    match Stop(provider, |ids|)
    case Some(k) => SaveSteps(ids, provider, k)
    case None => SaveSteps(ids, provider, |ids|) + [Charge(AsSet(Failures(ids, provider, |ids|)), later)]
  }

  lemma {:induction false} RunOne(s: System, step: Step, locate: Locator)
    requires InBounds(locate) && Enabled(s, step)
    ensures Run(s, [step], locate) == Next(s, step, locate)
  {
    assert [step][..0] == [];
    assert Run(s, [], locate) == s;
  }

  lemma RunThenOne(s: System, steps: seq<Step>, step: Step, locate: Locator)
    requires InBounds(locate) && Enabled(Run(s, steps, locate), step)
    ensures Run(s, steps + [step], locate) == Next(Run(s, steps, locate), step, locate)
  {
    RunSplit(s, steps, [step], locate);
    RunOne(Run(s, steps, locate), step, locate);
  }

  lemma RunFour(s: System, a: Step, b: Step, c: Step, d: Step, s1: System, s2: System, s3: System, locate: Locator)
    requires InBounds(locate)
    requires Enabled(s, a) && Next(s, a, locate) == s1
    requires Enabled(s1, b) && Next(s1, b, locate) == s2
    requires Enabled(s2, c) && Next(s2, c, locate) == s3
    requires Enabled(s3, d)
    ensures Run(s, [a, b, c, d], locate) == Next(s3, d, locate)
  {
    RunOne(s, a, locate);
    RunThenOne(s, [a], b, locate);
    RunThenOne(s, [a] + [b], c, locate);
    RunThenOne(s, [a] + [b] + [c], d, locate);
    assert [a] + [b] + [c] + [d] == [a, b, c, d];
  }

  lemma LoadStep(db: Db, id: nat, locate: Locator)
    requires InBounds(locate) && id < |db.articles|
    ensures Next(System(db, map[]), Load(0, id, true, true), locate) ==
            System(db, map[0 := Asked(id, db.articles[id].text, true)])
  {
  }

  lemma WriteRowStep(db: Db, id: nat, text: ArticleText, reply: Reply, locate: Locator)
    requires InBounds(locate)
    ensures Next(System(db, map[0 := Asked(id, text, true)]), WriteRow(0, reply), locate) ==
            System(db.(analyses := db.analyses + [AnalysisRow(id, reply.Parsed?)]),
                   map[0 := RowWritten(id, text, true, |db.analyses|, reply)])
  {
  }

  lemma WriteFindingsStep(db: Db, id: nat, text: ArticleText, analysis: nat, reply: Reply, locate: Locator)
    requires InBounds(locate)
    ensures Next(System(db, map[0 := RowWritten(id, text, true, analysis, reply)]), WriteFindings(0), locate) ==
            System(db.(findings := db.findings + FindingRows(analysis, KeptFindings(reply, text, locate))),
                   map[0 := FindingsWritten(id, analysis, reply)])
  {
  }

  lemma MarkStep(db: Db, id: nat, analysis: nat, reply: Reply, locate: Locator)
    requires InBounds(locate)
    ensures var (status, category) := Outcome(reply.Parsed?, CategoryOf(reply));
            Next(System(db, map[0 := FindingsWritten(id, analysis, reply)]), Mark(0), locate) ==
            System(db.(articles := MarkAnalyzed(db.articles, id, status, category)), map[])
  {
    assert map[0 := FindingsWritten(id, analysis, reply)] - {0} == map[];
  }

  lemma CompletedIsARun(db: Db, id: nat, reply: Reply, locate: Locator)
    requires InBounds(locate) && id < |db.articles|
    ensures Run(System(db, map[]), ArticleSteps(id, reply), locate) == System(Completed(db, id, reply, locate), map[])
  {
    var text, analysis := db.articles[id].text, |db.analyses|;
    var db2 := db.(analyses := db.analyses + [AnalysisRow(id, reply.Parsed?)]);
    var db3 := db2.(findings := db.findings + FindingRows(analysis, KeptFindings(reply, text, locate)));
    LoadStep(db, id, locate);
    WriteRowStep(db, id, text, reply, locate);
    WriteFindingsStep(db2, id, text, analysis, reply, locate);
    MarkStep(db3, id, analysis, reply, locate);
    RunFour(
      System(db, map[]), Load(0, id, true, true), WriteRow(0, reply), WriteFindings(0), Mark(0),
      System(db, map[0 := Asked(id, text, true)]),
      System(db2, map[0 := RowWritten(id, text, true, analysis, reply)]),
      System(db3, map[0 := FindingsWritten(id, analysis, reply)]), locate);
  }

  lemma RunThen(s: System, first: seq<Step>, more: seq<Step>, mid: System, end: System, locate: Locator)
    requires InBounds(locate) && Run(s, first, locate) == mid && Run(mid, more, locate) == end
    ensures Run(s, first + more, locate) == end
  {
    RunSplit(s, first, more, locate);
  }

  lemma {:induction false} SaveAllIsARun(db: Db, ids: seq<nat>, provider: Provider, locate: Locator, n: nat)
    requires InBounds(locate) && n <= |ids| && InRange(db, ids)
    ensures Run(System(db, map[]), SaveSteps(ids, provider, n), locate)
            == System(SaveAll(db, ids, provider, locate, n), map[])
  {
    if n > 0 {
      SaveAllIsARun(db, ids, provider, locate, n - 1);
      var earlier, steps := SaveAll(db, ids, provider, locate, n - 1), SaveSteps(ids, provider, n - 1);
      match provider(n - 1)
      case ProviderError =>
        assert SaveSteps(ids, provider, n) == steps;
      case Answered(reply) =>
        CompletedIsARun(earlier, ids[n - 1], reply, locate);
        RunThen(System(db, map[]), steps, ArticleSteps(ids[n - 1], reply), System(earlier, map[]),
                System(Completed(earlier, ids[n - 1], reply, locate), map[]), locate);
    }
  }

  /** So whatever holds of every interleaving holds after any pass: the audit, above all. */
  lemma PassIsARun(db: Db, ids: seq<nat>, provider: Provider, locate: Locator, later: int)
    requires InBounds(locate) && InRange(db, ids)
    ensures Run(System(db, map[]), PassSteps(ids, provider, later), locate) ==
            System(PassResult(db, ids, provider, locate, later), map[])
  {
    match Stop(provider, |ids|)
    case Some(k) => SaveAllIsARun(db, ids, provider, locate, k);
    case None =>
      SaveAllIsARun(db, ids, provider, locate, |ids|);
      RunThenOne(System(db, map[]), SaveSteps(ids, provider, |ids|),
                 Charge(AsSet(Failures(ids, provider, |ids|)), later), locate);
  }

  lemma PassKeepsAudit(db: Db, ids: seq<nat>, provider: Provider, locate: Locator, later: int)
    requires InBounds(locate) && InRange(db, ids) && Sound(db)
    ensures Sound(PassResult(db, ids, provider, locate, later))
    ensures AuditPasses(PassResult(db, ids, provider, locate, later))
  {
    PassIsARun(db, ids, provider, locate, later);
    RunKeepsInvariant(System(db, map[]), PassSteps(ids, provider, later), locate);
    SoundPassesAudit(PassResult(db, ids, provider, locate, later));
  }

  // ---------------------------------------------------------------------------
  // What a reply leaves in the tables
  // ---------------------------------------------------------------------------

  /** A parsed reply makes the article analysed, with the category it names if it names one; any other, failed. */
  lemma ReplySettles(article: Article, reply: Reply)
    ensures var after := Settled(article, reply);
            && SameIdentity(article, after)
            && after.attempts == article.attempts && after.lastAttempt == article.lastAttempt
            && match reply
               case Parsed(_, Some(category)) => after.status == Analyzed && after.category == Some(category)
               case Parsed(_, None) => after.status == Analyzed && after.category == article.category
               case Unparsed => after.status == Failed && after.category == article.category
  {
  }

  /** The findings stored under one analysis, in the order they were stored. */
  function FindingsUnder(findings: seq<FindingRow>, analysis: nat): seq<VerifiedFinding> {
    if findings == [] then []
    else
      var last := findings[|findings| - 1];
      FindingsUnder(findings[..|findings| - 1], analysis) + if last.analysis == analysis then [last.finding] else []
  }

  lemma {:induction false} UnderBoth(left: seq<FindingRow>, right: seq<FindingRow>, analysis: nat)
    ensures FindingsUnder(left + right, analysis) == FindingsUnder(left, analysis) + FindingsUnder(right, analysis)
  {
    if right == [] {
      assert left + right == left;
    } else {
      var n := |right| - 1;
      assert (left + right)[..|left| + n] == left + right[..n];
      UnderBoth(left, right[..n], analysis);
    }
  }

  lemma {:induction false} UnderOwn(owner: nat, findings: seq<VerifiedFinding>, analysis: nat)
    ensures FindingsUnder(FindingRows(owner, findings), analysis) == if owner == analysis then findings else []
  {
    if findings != [] {
      var n := |findings| - 1;
      var init := findings[..n];
      UnderOwn(owner, init, analysis);
      assert FindingRows(owner, findings)[..n] == FindingRows(owner, init);
      assert findings == init + [findings[n]];
    }
  }

  lemma {:induction false} NoneUnder(findings: seq<FindingRow>, analysis: nat)
    requires forall i :: 0 <= i < |findings| ==> findings[i].analysis != analysis
    ensures FindingsUnder(findings, analysis) == []
  {
    if findings != [] {
      NoneUnder(findings[..|findings| - 1], analysis);
    }
  }

  lemma CompletedRows(db: Db, id: nat, reply: Reply, locate: Locator, analysis: nat)
    requires InBounds(locate) && id < |db.articles|
    ensures var after := Completed(db, id, reply, locate);
            && after.analyses == db.analyses + [AnalysisRow(id, reply.Parsed?)]
            && FindingsUnder(after.findings, analysis) ==
               FindingsUnder(db.findings, analysis)
               + if analysis == |db.analyses| then KeptFindings(reply, db.articles[id].text, locate) else []
  {
    var kept := KeptFindings(reply, db.articles[id].text, locate);
    UnderBoth(db.findings, FindingRows(|db.analyses|, kept), analysis);
    UnderOwn(|db.analyses|, kept, analysis);
  }

  lemma {:induction false} SavedRows(db: Db, ids: seq<nat>, provider: Provider, locate: Locator, n: nat)
    requires InBounds(locate) && n <= |ids| && InRange(db, ids)
    ensures var after := SaveAll(db, ids, provider, locate, n);
            db.analyses <= after.analyses && |after.analyses| == |db.analyses| + Replies(provider, n)
  {
    if n > 0 {
      SavedRows(db, ids, provider, locate, n - 1);
    }
  }

  /** One analysis row, and what is stored under it. */
  ghost predicate RowHolds(db: Db, row: nat, article: nat, parsed: bool, kept: seq<VerifiedFinding>) {
    && row < |db.analyses| && db.analyses[row] == AnalysisRow(article, parsed)
    && FindingsUnder(db.findings, row) == kept
  }

  lemma RowStays(
    db: Db, row: nat, article: nat, parsed: bool, kept: seq<VerifiedFinding>, id: nat, reply: Reply, locate: Locator
  )
    requires InBounds(locate) && id < |db.articles| && RowHolds(db, row, article, parsed, kept)
    ensures RowHolds(Completed(db, id, reply, locate), row, article, parsed, kept)
  {
    CompletedRows(db, id, reply, locate, row);
  }

  lemma RowAdded(
    earlier: Db, later: Db, id: nat, reply: Reply, locate: Locator, row: nat, text: ArticleText,
    kept: seq<VerifiedFinding>
  )
    requires InBounds(locate) && id < |earlier.articles| && later == Completed(earlier, id, reply, locate)
    requires row == |earlier.analyses| && FindingsUnder(earlier.findings, row) == []
    requires text == earlier.articles[id].text && kept == KeptFindings(reply, text, locate)
    ensures RowHolds(later, row, id, reply.Parsed?, kept)
  {
    CompletedRows(earlier, id, reply, locate, row);
  }

  /** The i-th article's reply has its row, in the order of replies, and its findings under it. */
  ghost predicate ReplyStored(
    before: Db, after: Db, ids: seq<nat>, provider: Provider, locate: Locator, i: nat
  )
    requires InBounds(locate) && i < |ids| && InRange(before, ids) && !Erred(provider, i)
  {
    var reply := provider(i).reply;
    RowHolds(after, |before.analyses| + Replies(provider, i), ids[i], reply.Parsed?,
             KeptFindings(reply, before.articles[ids[i]].text, locate))
  }

  lemma RowStaysStep(
    earlier: Db, later: Db, answer: Answer, id: nat, locate: Locator,
    row: nat, article: nat, parsed: bool, kept: seq<VerifiedFinding>
  )
    requires InBounds(locate) && id < |earlier.articles| && RowHolds(earlier, row, article, parsed, kept)
    requires later == match answer
                      case ProviderError => earlier
                      case Answered(reply) => Completed(earlier, id, reply, locate)
    ensures RowHolds(later, row, article, parsed, kept)
  {
    if answer.Answered? {
      RowStays(earlier, row, article, parsed, kept, id, answer.reply, locate);
    }
  }

  /** Once a row is there, it stays. */
  lemma {:induction false} SavedRowStays(
    db: Db, ids: seq<nat>, provider: Provider, locate: Locator, m: nat, n: nat,
    row: nat, article: nat, parsed: bool, kept: seq<VerifiedFinding>
  )
    requires InBounds(locate) && m <= n <= |ids| && InRange(db, ids)
    requires RowHolds(SaveAll(db, ids, provider, locate, m), row, article, parsed, kept)
    ensures RowHolds(SaveAll(db, ids, provider, locate, n), row, article, parsed, kept)
  {
    if m < n {
      SavedRowStays(db, ids, provider, locate, m, n - 1, row, article, parsed, kept);
      RowStaysStep(SaveAll(db, ids, provider, locate, n - 1), SaveAll(db, ids, provider, locate, n),
                   provider(n - 1), ids[n - 1], locate, row, article, parsed, kept);
    }
  }

  lemma RowJustAdded(
    db: Db, ids: seq<nat>, provider: Provider, locate: Locator, i: nat,
    reply: Reply, row: nat, kept: seq<VerifiedFinding>
  )
    requires InBounds(locate) && i < |ids| && InRange(db, ids) && provider(i) == Answered(reply)
    requires forall k :: 0 <= k < |db.findings| ==> db.findings[k].analysis < |db.analyses|
    requires row == |db.analyses| + Replies(provider, i)
    requires kept == KeptFindings(reply, db.articles[ids[i]].text, locate)
    ensures RowHolds(SaveAll(db, ids, provider, locate, i + 1), row, ids[i], reply.Parsed?, kept)
  {
    SavedRows(db, ids, provider, locate, i);
    SaveAllKeepsText(db, ids, provider, locate, i);
    NothingYet(db, ids, provider, locate, i, row);
    RowAdded(SaveAll(db, ids, provider, locate, i), SaveAll(db, ids, provider, locate, i + 1),
             ids[i], reply, locate, row, db.articles[ids[i]].text, kept);
  }

  lemma SavedReply(
    db: Db, ids: seq<nat>, provider: Provider, locate: Locator, n: nat, i: nat,
    reply: Reply, row: nat, kept: seq<VerifiedFinding>
  )
    requires InBounds(locate) && i < n <= |ids| && InRange(db, ids) && provider(i) == Answered(reply)
    requires forall k :: 0 <= k < |db.findings| ==> db.findings[k].analysis < |db.analyses|
    requires row == |db.analyses| + Replies(provider, i)
    requires kept == KeptFindings(reply, db.articles[ids[i]].text, locate)
    ensures RowHolds(SaveAll(db, ids, provider, locate, n), row, ids[i], reply.Parsed?, kept)
  {
    RowJustAdded(db, ids, provider, locate, i, reply, row, kept);
    SavedRowStays(db, ids, provider, locate, i + 1, n, row, ids[i], reply.Parsed?, kept);
  }

  /** Nothing is stored under an analysis that is not there yet. */
  lemma {:induction false} NothingYet(
    db: Db, ids: seq<nat>, provider: Provider, locate: Locator, n: nat, analysis: nat
  )
    requires InBounds(locate) && n <= |ids| && InRange(db, ids)
    requires forall k :: 0 <= k < |db.findings| ==> db.findings[k].analysis < |db.analyses|
    requires |db.analyses| + Replies(provider, n) <= analysis
    ensures FindingsUnder(SaveAll(db, ids, provider, locate, n).findings, analysis) == []
  {
    if n == 0 {
      NoneUnder(db.findings, analysis);
    } else {
      NothingYet(db, ids, provider, locate, n - 1, analysis);
      SavedRows(db, ids, provider, locate, n - 1);
      if provider(n - 1).Answered? {
        CompletedRows(SaveAll(db, ids, provider, locate, n - 1), ids[n - 1], provider(n - 1).reply, locate, analysis);
      }
    }
  }

  /**
   * No reply is lost, invented or mixed up: a pass adds one analysis row for each reply it got
   * before any abort, in order, and stores under it exactly the findings that the quote check
   * keeps of that reply against the text of that article.
   */
  lemma EveryReplyIsStored(
    db: Db, ids: seq<nat>, provider: Provider, locate: Locator, later: int, i: nat
  )
    requires InBounds(locate) && InRange(db, ids) && Sound(db)
    requires i < Processed(provider, |ids|) && !Erred(provider, i)
    ensures var after := PassResult(db, ids, provider, locate, later);
            && db.analyses <= after.analyses
            && |after.analyses| == |db.analyses| + Replies(provider, Processed(provider, |ids|))
            && ReplyStored(db, after, ids, provider, locate, i)
  {
    forall k | 0 <= k < |db.findings|
      ensures db.findings[k].analysis < |db.analyses|
    {
      assert RowSound(db, db.findings[k]);
    }
    SavedRows(db, ids, provider, locate, Processed(provider, |ids|));
    var reply := provider(i).reply;
    SavedReply(db, ids, provider, locate, Processed(provider, |ids|), i,
               reply, |db.analyses| + Replies(provider, i), KeptFindings(reply, db.articles[ids[i]].text, locate));
  }
}

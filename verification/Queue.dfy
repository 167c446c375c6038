/**
 * The analysis queue (src/analyzer/store.py) and one pass over it (src/analyzer/__main__.py).
 *
 * `RunPass` is the loop as written, over mutable tables and a mutable failure tracker. It is
 * proved equal to `PassResult`, which says what a pass does in terms of the sequence of answers
 * the provider gives.
 */
module Queue {
  import opened Wrappers
  import opened Analyze
  import opened Corpus

  const HOUR: int := 3600
  const RETRY_BACKOFF_HOURS: int := 1
  const CONSECUTIVE_FAILURE_LIMIT: nat := 3

  /** One attempt at one article: the provider failed, or a reply arrived. */
  datatype Answer = ProviderError | Answered(reply: Reply)

  /** The answer to the i-th article of a pass. */
  type Provider = nat -> Answer

  datatype PendingArticle = PendingArticle(id: nat, text: ArticleText)

  // ---------------------------------------------------------------------------
  // What is due
  // ---------------------------------------------------------------------------

  predicate IsDue(db: Db, id: nat, now: int)
    requires id < |db.articles|
  {
    var a := db.articles[id];
    && a.status == Pending
    && (a.lastAttempt == None || a.lastAttempt.value < now - HOUR * RETRY_BACKOFF_HOURS * a.attempts)
    && id !in db.gold
  }

  /** The due articles among the first `n`, oldest first. */
  function DueBelow(db: Db, now: int, n: nat): (due: seq<nat>)
    requires n <= |db.articles|
    ensures forall i, j :: 0 <= i < j < |due| ==> due[i] < due[j]
    ensures forall i :: 0 <= i < |due| ==> due[i] < n && IsDue(db, due[i], now)
    ensures forall id: nat :: id < n && IsDue(db, id, now) ==> id in due
  {
    if n == 0 then []
    else DueBelow(db, now, n - 1) + if IsDue(db, n - 1, now) then [n - 1] else []
  }

  function Selected(db: Db, now: int, limit: Option<nat>): (ids: seq<nat>)
    ensures forall i, j :: 0 <= i < j < |ids| ==> ids[i] < ids[j]
    ensures forall i :: 0 <= i < |ids| ==> ids[i] < |db.articles| && IsDue(db, ids[i], now)
  {
    var due := DueBelow(db, now, |db.articles|);
    if limit.Some? && limit.value < |due| then due[..limit.value] else due
  }

  /** The article is due and was left out. */
  ghost predicate LeftOut(db: Db, now: int, limit: Option<nat>, id: nat) {
    id < |db.articles| && IsDue(db, id, now) && id !in Selected(db, now, limit)
  }

  /** A limit keeps the oldest: it is met, whenever anything is left out, and what is left out is younger. */
  lemma LimitKeepsOldest(db: Db, now: int, limit: Option<nat>, id: nat)
    ensures limit.Some? ==> |Selected(db, now, limit)| <= limit.value
    ensures LeftOut(db, now, limit, id) ==>
              && limit == Some(|Selected(db, now, limit)|)
              && forall i :: 0 <= i < |Selected(db, now, limit)| ==> Selected(db, now, limit)[i] < id
  {
    var due, ids := DueBelow(db, now, |db.articles|), Selected(db, now, limit);
    if LeftOut(db, now, limit, id) {
      assert id in due;
      var k :| 0 <= k < |due| && due[k] == id;
      assert ids == due[..|ids|];
    }
  }

  // ---------------------------------------------------------------------------
  // The pass as a function of the answers
  // ---------------------------------------------------------------------------

  predicate Erred(provider: Provider, i: nat) {
    provider(i).ProviderError?
  }

  /** The third provider error in a row. */
  predicate ThirdInARow(provider: Provider, k: nat) {
    k >= 2 && Erred(provider, k - 2) && Erred(provider, k - 1) && Erred(provider, k)
  }

  /** The first third-in-a-row among the first `n` answers. */
  function Stop(provider: Provider, n: nat): (k: Option<nat>)
    ensures k.Some? ==> k.value < n && ThirdInARow(provider, k.value)
    ensures k.Some? ==> forall i: nat :: i < k.value ==> !ThirdInARow(provider, i)
    ensures k.None? ==> forall i: nat :: i < n ==> !ThirdInARow(provider, i)
  {
    if n == 0 then None
    else
      match Stop(provider, n - 1)
      case Some(k) => Some(k)
      case None => if ThirdInARow(provider, n - 1) then Some(n - 1) else None
  }

  /** Saving one analysis and taking its article out of the queue. */
  function Completed(db: Db, id: nat, reply: Reply, locate: Locator): Db
    requires InBounds(locate) && id < |db.articles|
  {
    var (status, category) := Outcome(reply.Parsed?, CategoryOf(reply));
    db.(
      analyses := db.analyses + [AnalysisRow(id, reply.Parsed?)],
      findings := db.findings + FindingRows(|db.analyses|, KeptFindings(reply, db.articles[id].text, locate)),
      articles := MarkAnalyzed(db.articles, id, status, category))
  }

  ghost predicate InRange(db: Db, ids: seq<nat>) {
    forall i :: 0 <= i < |ids| ==> ids[i] < |db.articles|
  }

  /** The first `n` articles of the pass, those that got a reply saved and marked in order. */
  function SaveAll(db: Db, ids: seq<nat>, provider: Provider, locate: Locator, n: nat): (r: Db)
    requires InBounds(locate) && n <= |ids| && InRange(db, ids)
    ensures |r.articles| == |db.articles| && r.gold == db.gold
  {
    if n == 0 then db
    else
      var earlier := SaveAll(db, ids, provider, locate, n - 1);
      match provider(n - 1)
      case ProviderError => earlier
      case Answered(reply) => Completed(earlier, ids[n - 1], reply, locate)
  }

  function Failures(ids: seq<nat>, provider: Provider, n: nat): seq<nat>
    requires n <= |ids|
  {
    if n == 0 then []
    else Failures(ids, provider, n - 1) + if Erred(provider, n - 1) then [ids[n - 1]] else []
  }

  function AsSet(ids: seq<nat>): set<nat> {
    set id | id in ids
  }

  /** Three failures in a row end the pass and charge nobody; otherwise every failure is charged. */
  function PassResult(db: Db, ids: seq<nat>, provider: Provider, locate: Locator, later: int): Db
    requires InBounds(locate) && InRange(db, ids)
  {
    match Stop(provider, |ids|)
    case Some(k) => SaveAll(db, ids, provider, locate, k)
    case None =>
      var saved := SaveAll(db, ids, provider, locate, |ids|);
      saved.(articles := BumpAttempts(saved.articles, AsSet(Failures(ids, provider, |ids|)), later))
  }

  function Replies(provider: Provider, n: nat): nat {
    if n == 0 then 0 else Replies(provider, n - 1) + if Erred(provider, n - 1) then 0 else 1
  }

  // ---------------------------------------------------------------------------
  // The mutable parts
  // ---------------------------------------------------------------------------

  class FailureTracker {
    var consecutive: nat
    var articleIds: seq<nat>

    constructor ()
      ensures consecutive == 0 && articleIds == []
    {
      consecutive, articleIds := 0, [];
    }

    /** Charges one failure; true when the pass should abort, and then the charges are dropped. */
    method RecordFailure(articleId: nat) returns (abort: bool)
      modifies this
      ensures consecutive == old(consecutive) + 1
      ensures abort == (old(consecutive) + 1 >= CONSECUTIVE_FAILURE_LIMIT)
      ensures articleIds == if abort then [] else old(articleIds) + [articleId]
    {
      consecutive := consecutive + 1;
      articleIds := articleIds + [articleId];
      if consecutive < CONSECUTIVE_FAILURE_LIMIT {
        return false;
      }
      articleIds := [];
      return true;
    }

    method RecordSuccess()
      modifies this
      ensures consecutive == 0 && articleIds == old(articleIds)
    {
      consecutive := 0;
    }
  }

  class Store {
    var articles: seq<Article>
    var analyses: seq<AnalysisRow>
    var findings: seq<FindingRow>
    var gold: set<nat>

    function Contents(): Db
      reads this
    {
      Db(articles, analyses, findings, gold)
    }

    constructor (db: Db)
      ensures Contents() == db
    {
      articles, analyses, findings, gold := db.articles, db.analyses, db.findings, db.gold;
    }

    method LoadPending(limit: Option<nat>, now: int) returns (pending: seq<PendingArticle>)
      ensures |pending| == |Selected(Contents(), now, limit)|
      ensures forall i :: 0 <= i < |pending| ==>
                var id := Selected(Contents(), now, limit)[i];
                pending[i] == PendingArticle(id, articles[id].text)
    {
      var ids := Selected(Contents(), now, limit);
      pending := [];
      for i := 0 to |ids|
        invariant |pending| == i
        invariant forall k :: 0 <= k < i ==> pending[k] == PendingArticle(ids[k], articles[ids[k]].text)
      {
        pending := pending + [PendingArticle(ids[i], articles[ids[i]].text)];
      }
    }

    /** Two inserts: the analysis row, then the findings that survived verification. */
    method SaveAnalysis(article: nat, analysis: Analysis)
      modifies this
      ensures articles == old(articles) && gold == old(gold)
      ensures analyses == old(analyses) + [AnalysisRow(article, analysis.parsed)]
      ensures findings == old(findings) + FindingRows(|old(analyses)|, analysis.findings)
    {
      var id := |analyses|;
      analyses := analyses + [AnalysisRow(article, analysis.parsed)];
      findings := findings + FindingRows(id, analysis.findings);
    }

    /** Takes one article out of the queue: it is never due again; no other article is touched. */
    method MarkAnalyzed(article: nat, status: Status, category: Option<Category>)
      modifies this
      ensures Contents() == old(Contents()).(articles := Corpus.MarkAnalyzed(old(articles), article, status, category))
      ensures |articles| == |old(articles)|
      ensures forall i :: 0 <= i < |articles| && i != article ==> articles[i] == old(articles)[i]
      ensures article < |articles| ==>
                var before, after := old(articles)[article], articles[article];
                && SameIdentity(before, after)
                && after.attempts == before.attempts && after.lastAttempt == before.lastAttempt
                && after.status == status
                && (category.None? ==> after.category == before.category)
                && (category.Some? ==> after.category == category)
      ensures article < |articles| && status != Pending ==> forall now :: !IsDue(Contents(), article, now)
    {
      articles := Corpus.MarkAnalyzed(articles, article, status, category);
    }

    method BumpAttempts(articleIds: seq<nat>, now: int)
      modifies this
      ensures Contents() == old(Contents()).(articles := Corpus.BumpAttempts(old(articles), AsSet(articleIds), now))
    {
      if articleIds == [] {
        assert articles == Corpus.BumpAttempts(articles, AsSet(articleIds), now);
        return;
      }
      articles := Corpus.BumpAttempts(articles, AsSet(articleIds), now);
    }
  }

  // ---------------------------------------------------------------------------
  // The pass
  // ---------------------------------------------------------------------------

  function Streak(provider: Provider, n: nat): nat {
    if n == 0 || !Erred(provider, n - 1) then 0 else Streak(provider, n - 1) + 1
  }

  /** The tracker's counter reaches the limit exactly at a third error in a row. */
  lemma StreakIsThird(provider: Provider, k: nat)
    ensures Streak(provider, k + 1) >= CONSECUTIVE_FAILURE_LIMIT <==> ThirdInARow(provider, k)
  {
    if k >= 2 {
      assert Streak(provider, k - 1) == 0 || Erred(provider, k - 2);
    }
  }

  /** A pass never rewrites what it loaded, so it may verify quotes against the loaded text. */
  lemma {:induction false} SaveAllKeepsText(db: Db, ids: seq<nat>, provider: Provider, locate: Locator, n: nat)
    requires InBounds(locate) && n <= |ids| && InRange(db, ids)
    ensures forall i :: 0 <= i < |db.articles| ==>
              SaveAll(db, ids, provider, locate, n).articles[i].text == db.articles[i].text
  {
    if n > 0 {
      SaveAllKeepsText(db, ids, provider, locate, n - 1);
    }
  }

  lemma ChargingNobody(articles: seq<Article>, now: int)
    ensures Corpus.BumpAttempts(articles, AsSet([]), now) == articles
  {
  }

  /** Everything the loop carries from one article to the next. */
  datatype LoopState = LoopState(db: Db, consecutive: nat, charged: seq<nat>, stored: nat, aborted: bool)

  /** One turn of the loop. */
  function Turn(st: LoopState, id: nat, answer: Answer, locate: Locator, dryRun: bool): (r: LoopState)
    requires InBounds(locate) && id < |st.db.articles|
    ensures |r.db.articles| == |st.db.articles|
  {
    match answer
    case ProviderError =>
      if st.consecutive + 1 < CONSECUTIVE_FAILURE_LIMIT
      then st.(consecutive := st.consecutive + 1, charged := st.charged + [id])
      else st.(consecutive := st.consecutive + 1, charged := [], aborted := true)
    case Answered(reply) =>
      if dryRun then st.(consecutive := 0)
      else st.(consecutive := 0, db := Completed(st.db, id, reply, locate), stored := st.stored + 1)
  }

  /** The loop after at most `n` turns; an aborted loop takes no more. */
  function Turns(db: Db, ids: seq<nat>, provider: Provider, locate: Locator, dryRun: bool, n: nat): (r: LoopState)
    requires InBounds(locate) && n <= |ids| && InRange(db, ids)
    ensures |r.db.articles| == |db.articles|
  {
    if n == 0 then LoopState(db, 0, [], 0, false)
    else
      var st := Turns(db, ids, provider, locate, dryRun, n - 1);
      if st.aborted then st else Turn(st, ids[n - 1], provider(n - 1), locate, dryRun)
  }

  lemma {:induction false} AbortedStays(
    db: Db, ids: seq<nat>, provider: Provider, locate: Locator, dryRun: bool, m: nat, n: nat
  )
    requires InBounds(locate) && m <= n <= |ids| && InRange(db, ids)
    requires Turns(db, ids, provider, locate, dryRun, m).aborted
    ensures Turns(db, ids, provider, locate, dryRun, n) == Turns(db, ids, provider, locate, dryRun, m)
  {
    if m < n {
      AbortedStays(db, ids, provider, locate, dryRun, m, n - 1);
    }
  }

  /** No third error in a row among the first `n` answers, and the counters say so. */
  ghost predicate Running(
    st: LoopState, db: Db, ids: seq<nat>, provider: Provider, locate: Locator, dryRun: bool, n: nat
  )
    requires InBounds(locate) && n <= |ids| && InRange(db, ids)
  {
    && !st.aborted && st.consecutive == Streak(provider, n)
    && st.charged == Failures(ids, provider, n)
    && st.db == (if dryRun then db else SaveAll(db, ids, provider, locate, n))
    && st.stored == (if dryRun then 0 else Replies(provider, n))
  }

  /** The loop stopped at answer `k`, with what was saved before it and no charges. */
  ghost predicate Stopped(
    st: LoopState, db: Db, ids: seq<nat>, provider: Provider, locate: Locator, dryRun: bool, k: nat
  )
    requires InBounds(locate) && k <= |ids| && InRange(db, ids)
  {
    && st.aborted && st.charged == []
    && st.db == (if dryRun then db else SaveAll(db, ids, provider, locate, k))
    && st.stored == (if dryRun then 0 else Replies(provider, k))
  }

  lemma TurnRuns(st: LoopState, db: Db, ids: seq<nat>, provider: Provider, locate: Locator, dryRun: bool, k: nat)
    requires InBounds(locate) && k < |ids| && InRange(db, ids)
    requires Running(st, db, ids, provider, locate, dryRun, k) && !ThirdInARow(provider, k)
    ensures ids[k] < |st.db.articles|
    ensures Running(Turn(st, ids[k], provider(k), locate, dryRun), db, ids, provider, locate, dryRun, k + 1)
  {
    StreakIsThird(provider, k);
  }

  lemma TurnStops(st: LoopState, db: Db, ids: seq<nat>, provider: Provider, locate: Locator, dryRun: bool, k: nat)
    requires InBounds(locate) && k < |ids| && InRange(db, ids)
    requires Running(st, db, ids, provider, locate, dryRun, k) && ThirdInARow(provider, k)
    ensures ids[k] < |st.db.articles|
    ensures Stopped(Turn(st, ids[k], provider(k), locate, dryRun), db, ids, provider, locate, dryRun, k)
  {
    StreakIsThird(provider, k);
  }

  /** What the turns amount to: a loop still running, or one stopped at the first third error in a row. */
  lemma {:induction false} TurnsMeaning(
    db: Db, ids: seq<nat>, provider: Provider, locate: Locator, dryRun: bool, n: nat
  )
    requires InBounds(locate) && n <= |ids| && InRange(db, ids)
    ensures var st := Turns(db, ids, provider, locate, dryRun, n);
            match Stop(provider, n)
            case None => Running(st, db, ids, provider, locate, dryRun, n)
            case Some(k) => Stopped(st, db, ids, provider, locate, dryRun, k)
  {
    if n > 0 {
      TurnsMeaning(db, ids, provider, locate, dryRun, n - 1);
      var st := Turns(db, ids, provider, locate, dryRun, n - 1);
      if Stop(provider, n - 1) == None {
        if ThirdInARow(provider, n - 1) {
          TurnStops(st, db, ids, provider, locate, dryRun, n - 1);
        } else {
          TurnRuns(st, db, ids, provider, locate, dryRun, n - 1);
        }
      }
    }
  }

  /** The loop text seen from a turn: a pass loads text once and no pass rewrites it. */
  lemma {:induction false} TurnsKeepText(
    db: Db, ids: seq<nat>, provider: Provider, locate: Locator, dryRun: bool, n: nat
  )
    requires InBounds(locate) && n <= |ids| && InRange(db, ids)
    ensures forall i :: 0 <= i < |db.articles| ==>
              Turns(db, ids, provider, locate, dryRun, n).db.articles[i].text == db.articles[i].text
  {
    if n > 0 {
      TurnsKeepText(db, ids, provider, locate, dryRun, n - 1);
    }
  }

  /** The body of the loop. */
  method TakeTurn(
    store: Store, tracker: FailureTracker, article: PendingArticle, answer: Answer,
    locate: Locator, dryRun: bool, count: nat
  ) returns (stored: nat, aborted: bool)
    requires InBounds(locate)
    requires article.id < |store.articles| && store.articles[article.id].text == article.text
    modifies store, tracker
    ensures LoopState(store.Contents(), tracker.consecutive, tracker.articleIds, stored, aborted) ==
            Turn(LoopState(old(store.Contents()), old(tracker.consecutive), old(tracker.articleIds), count, false),
                 article.id, answer, locate, dryRun)
  {
    stored, aborted := count, false;
    match answer
    case ProviderError =>
      aborted := tracker.RecordFailure(article.id);
    case Answered(reply) =>
      tracker.RecordSuccess();
      var analysis := AnalyzeReply(reply, article.text, locate);
      var (status, category) := Outcome(analysis.parsed, analysis.category);
      if dryRun {
        return;
      }
      store.SaveAnalysis(article.id, analysis);
      store.MarkAnalyzed(article.id, status, category);
      stored := stored + 1;
  }

  method RunLoop(store: Store, tracker: FailureTracker, pending: seq<PendingArticle>, ghost ids: seq<nat>,
    provider: Provider, locate: Locator, dryRun: bool) returns (stored: nat)
    requires InBounds(locate)
    requires tracker.consecutive == 0 && tracker.articleIds == []
    requires |ids| == |pending| && InRange(store.Contents(), ids)
    requires forall i :: 0 <= i < |pending| ==> pending[i] == PendingArticle(ids[i], store.articles[ids[i]].text)
    modifies store, tracker
    ensures var st := Turns(old(store.Contents()), ids, provider, locate, dryRun, |ids|);
            store.Contents() == st.db && tracker.articleIds == st.charged && stored == st.stored
  {
    ghost var before := store.Contents();
    stored := 0;
    for i := 0 to |pending|
      invariant LoopState(store.Contents(), tracker.consecutive, tracker.articleIds, stored, false) ==
                Turns(before, ids, provider, locate, dryRun, i)
    {
      TurnsKeepText(before, ids, provider, locate, dryRun, i);
      var aborted;
      stored, aborted := TakeTurn(store, tracker, pending[i], provider(i), locate, dryRun, stored);
      if aborted {
        AbortedStays(before, ids, provider, locate, dryRun, i + 1, |ids|);
        break;
      }
    }
  }

  method RunPass(
    store: Store, provider: Provider, locate: Locator, limit: Option<nat>, dryRun: bool, now: int, later: int
  ) returns (stored: nat)
    requires InBounds(locate)
    modifies store
    ensures dryRun ==> store.Contents() == old(store.Contents()) && stored == 0
    ensures !dryRun ==>
              var ids := Selected(old(store.Contents()), now, limit);
              && store.Contents() == PassResult(old(store.Contents()), ids, provider, locate, later)
              && stored == match Stop(provider, |ids|)
                           case Some(k) => Replies(provider, k)
                           case None => Replies(provider, |ids|)
  {
    ghost var before := store.Contents();
    ghost var ids := Selected(before, now, limit);
    var pending := store.LoadPending(limit, now);
    TurnsMeaning(before, ids, provider, locate, dryRun, |ids|);
    stored := 0;
    if pending == [] {
      ChargingNobody(store.articles, later);
      return;
    }
    var tracker := new FailureTracker();
    stored := RunLoop(store, tracker, pending, ids, provider, locate, dryRun);
    ChargingNobody(store.articles, later);
    if !dryRun {
      store.BumpAttempts(tracker.articleIds, later);
    }
  }
}

/**
 * Retries over whole runs. The tables do not keep every charge, only the count and the last one;
 * here each article's charges since its last requeue are kept beside them, with whether a reply
 * has settled it since, and shown to decide exactly when the article is loaded again.
 */
module RetrySpacing {
  import opened Wrappers
  import opened Analyze
  import opened Corpus
  import opened Queue
  import opened QueueRuns

  /**
   * What happens to the queue. A pass loads at `now` and charges at `later`; an abandoned pass
   * crashed after some of its articles, having charged nobody.
   */
  datatype Event =
    | FullPass(run: PassRun)
    | Abandoned(run: PassRun, reached: nat)
    | Ingested(rows: seq<NewArticle>)
    | Requeued(stale: set<nat>)
    | GoldChanged(gold: set<nat>)

  /** Since an article was last requeued: when it was charged, and whether a reply has settled it. */
  datatype Ledger = Ledger(charges: seq<int>, answered: bool)

  const BLANK: Ledger := Ledger([], false)

  /** The tables, the clock, and each article's ledger. */
  datatype History = History(db: Db, clock: int, ledgers: seq<Ledger>)

  const START: History := History(EMPTY, 0, [])

  /** Time does not run backwards. */
  predicate Possible(h: History, e: Event) {
    match e
    case FullPass(run) => h.clock <= run.now <= run.later
    case Abandoned(run, reached) => h.clock <= run.now && reached <= |Selected(h.db, run.now, run.limit)|
    case Ingested(_) => true
    case Requeued(_) => true
    case GoldChanged(_) => true
  }

  /** The articles a pass charges. */
  function ChargedBy(db: Db, run: PassRun): set<nat> {
    var ids := Selected(db, run.now, run.limit);
    if Stop(run.provider, |ids|).Some? then {} else AsSet(Failures(ids, run.provider, |ids|))
  }

  /** The articles among the first `n` of a pass that got a reply. */
  function Replied(ids: seq<nat>, provider: Provider, n: nat): set<nat>
    requires n <= |ids|
  {
    if n == 0 then {} else Replied(ids, provider, n - 1) + if Erred(provider, n - 1) then {} else {ids[n - 1]}
  }

  lemma {:induction false} RepliedAt(ids: seq<nat>, provider: Provider, n: nat, i: nat)
    requires n <= |ids| && Distinct(ids) && i < |ids|
    ensures ids[i] in Replied(ids, provider, n) <==> i < n && !Erred(provider, i)
  {
    if n > 0 {
      RepliedAt(ids, provider, n - 1, i);
    }
  }

  lemma {:induction false} RepliedElsewhere(ids: seq<nat>, provider: Provider, n: nat, id: nat)
    requires n <= |ids| && id !in ids
    ensures id !in Replied(ids, provider, n)
  {
    if n > 0 {
      RepliedElsewhere(ids, provider, n - 1, id);
    }
  }

  function Entered(ledger: Ledger, charged: bool, replied: bool, at: int): Ledger {
    Ledger(if charged then ledger.charges + [at] else ledger.charges, ledger.answered || replied)
  }

  function LedgersAfter(ledgers: seq<Ledger>, charged: set<nat>, replied: set<nat>, at: int): (r: seq<Ledger>)
    ensures |r| == |ledgers|
    ensures forall i :: 0 <= i < |r| ==> r[i] == Entered(ledgers[i], i in charged, i in replied, at)
  {
    seq(|ledgers|, i requires 0 <= i < |ledgers| => Entered(ledgers[i], i in charged, i in replied, at))
  }

  /** A requeued article, and only a requeued one, starts a new ledger. */
  function LedgersRequeued(before: Db, after: seq<Article>, ledgers: seq<Ledger>): (r: seq<Ledger>)
    requires |before.articles| == |after| == |ledgers|
    ensures |r| == |ledgers|
    ensures forall i :: 0 <= i < |r| ==> r[i] == if after[i] == before.articles[i] then ledgers[i] else BLANK
  {
    seq(|ledgers|, i requires 0 <= i < |ledgers| => if after[i] == before.articles[i] then ledgers[i] else BLANK)
  }

  function Blanks(n: nat): (r: seq<Ledger>)
    ensures |r| == n && forall i :: 0 <= i < n ==> r[i] == BLANK
  {
    seq(n, _ => BLANK)
  }

  function Later(h: History, e: Event, locate: Locator): History
    requires InBounds(locate) && Possible(h, e) && |h.ledgers| == |h.db.articles|
    requires UniqueHashes(h.db.articles)
  {
    var db := h.db;
    match e
    case FullPass(run) =>
      var ids := Selected(db, run.now, run.limit);
      var replied := Replied(ids, run.provider, Processed(run.provider, |ids|));
      History(PassAt(db, run, locate), run.later, LedgersAfter(h.ledgers, ChargedBy(db, run), replied, run.later))
    case Abandoned(run, reached) =>
      var ids := Selected(db, run.now, run.limit);
      var replied := Replied(ids, run.provider, reached);
      History(SaveAll(db, ids, run.provider, locate, reached), run.now,
              LedgersAfter(h.ledgers, {}, replied, run.now))
    case Ingested(rows) =>
      InsertAllKeeps(db.articles, rows);
      var articles := InsertAll(db.articles, rows);
      h.(db := db.(articles := articles), ledgers := h.ledgers + Blanks(|articles| - |db.articles|))
    case Requeued(stale) =>
      var articles := Requeue(db, stale);
      h.(db := db.(articles := articles), ledgers := LedgersRequeued(db, articles, h.ledgers))
    case GoldChanged(gold) => h.(db := db.(gold := gold))
  }

  /** The k-th retry comes more than k hours after the charge before it. */
  ghost predicate Spaced(times: seq<int>) {
    forall k :: 0 < k < |times| ==> times[k] > times[k - 1] + HOUR * k
  }

  /** What an article's status must be: settled by a reply, out of attempts, or waiting its turn. */
  predicate StatusFits(status: Status, ledger: Ledger) {
    if ledger.answered then status == Analyzed || status == Failed
    else status == if |ledger.charges| == MAX_ATTEMPTS then FailedPermanent else Pending
  }

  /** The row's counter and timestamp summarise the charges, and its status what became of it. */
  ghost predicate Accounts(article: Article, ledger: Ledger, clock: int) {
    var times := ledger.charges;
    && article.attempts == |times| <= MAX_ATTEMPTS
    && article.lastAttempt == (if times == [] then None else Some(times[|times| - 1]))
    && (times != [] ==> times[|times| - 1] <= clock)
    && StatusFits(article.status, ledger)
    && Spaced(times)
  }

  ghost predicate Summarised(h: History) {
    && |h.ledgers| == |h.db.articles|
    && UniqueHashes(h.db.articles)
    && forall i :: 0 <= i < |h.ledgers| ==> Accounts(h.db.articles[i], h.ledgers[i], h.clock)
  }

  /** The article has waited out its charges: more than an hour for each, since the last one. */
  predicate HasWaited(charges: seq<int>, now: int) {
    charges != [] ==> now > charges[|charges| - 1] + HOUR * |charges|
  }

  /** Being due is not being gold, answered or out of attempts, and having waited. */
  lemma DueIff(h: History, id: nat, now: int)
    requires Summarised(h) && id < |h.db.articles|
    ensures IsDue(h.db, id, now) <==>
              && !h.ledgers[id].answered && id !in h.db.gold
              && |h.ledgers[id].charges| < MAX_ATTEMPTS && HasWaited(h.ledgers[id].charges, now)
  {
    assert Accounts(h.db.articles[id], h.ledgers[id], h.clock);
  }

  lemma ChargeAccounts(article: Article, ledger: Ledger, clock: int, later: int)
    requires Accounts(article, ledger, clock) && clock <= later
    requires !ledger.answered && |ledger.charges| < MAX_ATTEMPTS && HasWaited(ledger.charges, later)
    ensures Accounts(Charged(article, later), Entered(ledger, true, false, later), later)
  {
  }

  lemma SettleAccounts(article: Article, reply: Reply, ledger: Ledger, clock: int, later: int)
    requires Accounts(article, ledger, clock)
    ensures Accounts(Settled(article, reply), Entered(ledger, false, true, later), clock)
  {
  }

  lemma ChargedAt(db: Db, run: PassRun, i: nat)
    requires i < |Selected(db, run.now, run.limit)|
    ensures var ids := Selected(db, run.now, run.limit);
            ids[i] in ChargedBy(db, run) <==> Stop(run.provider, |ids|).None? && Erred(run.provider, i)
  {
    var ids := Selected(db, run.now, run.limit);
    FailedAt(ids, run.provider, |ids|, i);
  }

  lemma ClockAccounts(article: Article, ledger: Ledger, clock: int, later: int)
    requires Accounts(article, ledger, clock) && clock <= later
    ensures Accounts(article, ledger, later)
    ensures Entered(ledger, false, false, later) == ledger
  {
  }

  /** An article the pass loaded: charged, settled, or left for want of a reply. */
  lemma LoadedAccounts(h: History, run: PassRun, locate: Locator, i: nat)
    requires InBounds(locate) && Summarised(h) && h.clock <= run.now <= run.later
    requires i < |Selected(h.db, run.now, run.limit)|
    ensures var ids := Selected(h.db, run.now, run.limit);
            var charged := ids[i] in ChargedBy(h.db, run);
            var replied := i < Processed(run.provider, |ids|) && !Erred(run.provider, i);
            Accounts(PassAt(h.db, run, locate).articles[ids[i]],
                     Entered(h.ledgers[ids[i]], charged, replied, run.later), run.later)
  {
    var ids := Selected(h.db, run.now, run.limit);
    var article, ledger := h.db.articles[ids[i]], h.ledgers[ids[i]];
    PassAtArticle(h.db, ids, run.provider, locate, run.later, i);
    ChargedAt(h.db, run, i);
    DueIff(h, ids[i], run.now);
    ClockAccounts(article, ledger, h.clock, run.later);
    if Erred(run.provider, i) {
      ChargeAccounts(article, ledger, h.clock, run.later);
    } else {
      SettleAccounts(article, run.provider(i).reply, ledger, run.later, run.later);
    }
  }

  lemma PassAccountsAt(h: History, run: PassRun, locate: Locator, id: nat)
    requires InBounds(locate) && Summarised(h) && Possible(h, FullPass(run)) && id < |h.db.articles|
    ensures Accounts(Later(h, FullPass(run), locate).db.articles[id],
                     Later(h, FullPass(run), locate).ledgers[id], run.later)
  {
    var ids := Selected(h.db, run.now, run.limit);
    var n := Processed(run.provider, |ids|);
    if id in ids {
      var i :| 0 <= i < |ids| && ids[i] == id;
      LoadedAccounts(h, run, locate, i);
      RepliedAt(ids, run.provider, n, i);
    } else {
      PassElsewhere(h.db, ids, run.provider, locate, run.later, id);
      FailedElsewhere(ids, run.provider, |ids|, id);
      RepliedElsewhere(ids, run.provider, n, id);
      ClockAccounts(h.db.articles[id], h.ledgers[id], h.clock, run.later);
    }
  }

  lemma AbandonedAccountsAt(h: History, run: PassRun, reached: nat, locate: Locator, id: nat)
    requires InBounds(locate) && Summarised(h) && id < |h.db.articles|
    requires Possible(h, Abandoned(run, reached))
    ensures Accounts(Later(h, Abandoned(run, reached), locate).db.articles[id],
                     Later(h, Abandoned(run, reached), locate).ledgers[id], run.now)
  {
    var ids := Selected(h.db, run.now, run.limit);
    var article, ledger := h.db.articles[id], h.ledgers[id];
    ClockAccounts(article, ledger, h.clock, run.now);
    if id in ids {
      var i :| 0 <= i < |ids| && ids[i] == id;
      SavedAt(h.db, ids, run.provider, locate, reached, i);
      RepliedAt(ids, run.provider, reached, i);
      if !Erred(run.provider, i) {
        SettleAccounts(article, run.provider(i).reply, ledger, run.now, run.now);
      }
    } else {
      SavedElsewhere(h.db, ids, run.provider, locate, reached, id);
      RepliedElsewhere(ids, run.provider, reached, id);
    }
  }

  lemma {:induction false} SaveAllKeepsHashes(db: Db, ids: seq<nat>, provider: Provider, locate: Locator, n: nat)
    requires InBounds(locate) && n <= |ids| && InRange(db, ids)
    ensures forall i :: 0 <= i < |db.articles| ==>
              SaveAll(db, ids, provider, locate, n).articles[i].urlHash == db.articles[i].urlHash
  {
    if n > 0 {
      SaveAllKeepsHashes(db, ids, provider, locate, n - 1);
    }
  }

  lemma SameHashes(before: seq<Article>, after: seq<Article>)
    requires UniqueHashes(before) && |before| == |after|
    requires forall i :: 0 <= i < |before| ==> after[i].urlHash == before[i].urlHash
    ensures UniqueHashes(after)
  {
  }

  lemma PassKeeps(h: History, run: PassRun, locate: Locator)
    requires InBounds(locate) && Summarised(h) && Possible(h, FullPass(run))
    ensures Summarised(Later(h, FullPass(run), locate))
  {
    var ids := Selected(h.db, run.now, run.limit);
    SaveAllKeepsHashes(h.db, ids, run.provider, locate, Processed(run.provider, |ids|));
    SameHashes(h.db.articles, PassAt(h.db, run, locate).articles);
    forall id | 0 <= id < |h.db.articles|
      ensures Accounts(Later(h, FullPass(run), locate).db.articles[id],
                       Later(h, FullPass(run), locate).ledgers[id], run.later)
    {
      PassAccountsAt(h, run, locate, id);
    }
  }

  lemma AbandonedKeeps(h: History, run: PassRun, reached: nat, locate: Locator)
    requires InBounds(locate) && Summarised(h) && Possible(h, Abandoned(run, reached))
    ensures Summarised(Later(h, Abandoned(run, reached), locate))
  {
    var ids := Selected(h.db, run.now, run.limit);
    SaveAllKeepsHashes(h.db, ids, run.provider, locate, reached);
    SameHashes(h.db.articles, SaveAll(h.db, ids, run.provider, locate, reached).articles);
    forall id | 0 <= id < |h.db.articles|
      ensures Accounts(Later(h, Abandoned(run, reached), locate).db.articles[id],
                       Later(h, Abandoned(run, reached), locate).ledgers[id], run.now)
    {
      AbandonedAccountsAt(h, run, reached, locate, id);
    }
  }

  lemma IngestKeeps(h: History, rows: seq<NewArticle>, locate: Locator)
    requires InBounds(locate) && Summarised(h)
    ensures Summarised(Later(h, Ingested(rows), locate))
  {
    InsertAllKeeps(h.db.articles, rows);
    var after := Later(h, Ingested(rows), locate);
    forall i | 0 <= i < |after.ledgers|
      ensures Accounts(after.db.articles[i], after.ledgers[i], h.clock)
    {
      if i < |h.db.articles| {
        assert after.db.articles[i] == h.db.articles[i];
        assert Accounts(h.db.articles[i], h.ledgers[i], h.clock);
      }
    }
  }

  lemma RequeueKeeps(h: History, stale: set<nat>, locate: Locator)
    requires InBounds(locate) && Summarised(h)
    ensures Summarised(Later(h, Requeued(stale), locate))
  {
    var after := Later(h, Requeued(stale), locate);
    SameHashes(h.db.articles, after.db.articles);
    forall i | 0 <= i < |after.ledgers|
      ensures Accounts(after.db.articles[i], after.ledgers[i], h.clock)
    {
      assert Accounts(h.db.articles[i], h.ledgers[i], h.clock);
    }
  }

  lemma EventKeeps(h: History, e: Event, locate: Locator)
    requires InBounds(locate) && Summarised(h) && Possible(h, e)
    ensures Summarised(Later(h, e, locate))
  {
    match e
    case FullPass(run) => PassKeeps(h, run, locate);
    case Abandoned(run, reached) => AbandonedKeeps(h, run, reached, locate);
    case Ingested(rows) => IngestKeeps(h, rows, locate);
    case Requeued(stale) => RequeueKeeps(h, stale, locate);
    case GoldChanged(_) =>
  }

  function Lived(events: seq<Event>, locate: Locator): (h: History)
    requires InBounds(locate)
    ensures Summarised(h)
  {
    if events == [] then START
    else
      var h := Lived(events[..|events| - 1], locate);
      var e := events[|events| - 1];
      if Possible(h, e) then
        EventKeeps(h, e, locate);
        Later(h, e, locate)
      else h
  }

  /**
   * In every run, between two requeues: an article is charged at most three times, the k-th
   * retry's charge comes more than k hours after the one before it, and the article is not even
   * loaded before that. After the third charge it is never loaded again.
   */
  lemma RetriesAreSpaced(events: seq<Event>, locate: Locator, id: nat, now: int)
    requires InBounds(locate)
    requires id < |Lived(events, locate).db.articles|
    ensures var h := Lived(events, locate);
            var charges := h.ledgers[id].charges;
            && Spaced(charges) && |charges| <= MAX_ATTEMPTS
            && h.db.articles[id].attempts == |charges|
            && (IsDue(h.db, id, now) ==>
                  && |charges| < MAX_ATTEMPTS
                  && (charges != [] ==> now > charges[|charges| - 1] + HOUR * |charges|))
  {
    var h := Lived(events, locate);
    assert Accounts(h.db.articles[id], h.ledgers[id], h.clock);
    DueIff(h, id, now);
  }

  /**
   * And it gets its retries. In every run, an article no reply has settled since its last requeue
   * is retired exactly when it has been charged three times, and otherwise pending; it is loaded,
   * unless it is gold, whenever it has waited more than an hour for each charge, and then only.
   */
  lemma RetriesAreGranted(events: seq<Event>, locate: Locator, id: nat, now: int)
    requires InBounds(locate)
    requires id < |Lived(events, locate).db.articles|
    ensures var h := Lived(events, locate);
            var status, charges := h.db.articles[id].status, h.ledgers[id].charges;
            && (h.ledgers[id].answered <==> status == Analyzed || status == Failed)
            && (!h.ledgers[id].answered ==>
                  && (status == FailedPermanent <==> |charges| == MAX_ATTEMPTS)
                  && (status == Pending <==> |charges| < MAX_ATTEMPTS))
            && (IsDue(h.db, id, now) <==>
                  && !h.ledgers[id].answered && id !in h.db.gold && |charges| < MAX_ATTEMPTS
                  && (charges == [] || now > charges[|charges| - 1] + HOUR * |charges|))
  {
    var h := Lived(events, locate);
    assert Accounts(h.db.articles[id], h.ledgers[id], h.clock);
    DueIff(h, id, now);
  }
}

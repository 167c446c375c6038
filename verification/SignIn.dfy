/**
 * The budget of failed sign-ins (src/api/security.py, src/api/routers/auth.py): a sliding window
 * over a table that each check prunes. Requests are handled one at a time.
 */
module SignIn {
  import opened Wrappers

  /** Fifteen minutes, in seconds. */
  const LOGIN_WINDOW: int := 900
  const MAX_FAILED_LOGINS: nat := 10

  /** What a failure is counted against: the lower-cased address, and the client where it is known. */
  datatype Identifier = Email(address: string) | Client(address: string)

  datatype Attempt = Attempt(identifier: Identifier, at: int)

  function Identifiers(email: string, caller: Option<string>): (ids: seq<Identifier>)
    ensures forall i, j :: 0 <= i < j < |ids| ==> ids[i] != ids[j]
  {
    [Email(email)] + if caller.Some? then [Client(caller.value)] else []
  }

  // ---------------------------------------------------------------------------
  // The table, and what each statement does to it
  // ---------------------------------------------------------------------------

  /** DELETE ... WHERE attempted_at < cutoff. */
  function Retain(rows: seq<Attempt>, cutoff: int): seq<Attempt> {
    if rows == [] then []
    else
      var last, earlier := rows[|rows| - 1], Retain(rows[..|rows| - 1], cutoff);
      if last.at < cutoff then earlier else earlier + [last]
  }

  /** Rows of one identifier strictly after `since` and before `until`. */
  function CountBetween(rows: seq<Attempt>, id: Identifier, since: int, until: Option<int>): nat {
    if rows == [] then 0
    else
      var last := rows[|rows| - 1];
      CountBetween(rows[..|rows| - 1], id, since, until)
      + if last.identifier == id && since < last.at && (until.None? || last.at < until.value) then 1 else 0
  }

  /** GROUP BY identifier HAVING count(*) >= the budget, over the window ending now. */
  predicate Spent(rows: seq<Attempt>, ids: seq<Identifier>, now: int) {
    exists i :: 0 <= i < |ids| && CountBetween(rows, ids[i], now - LOGIN_WINDOW, None) >= MAX_FAILED_LOGINS
  }

  function Inserted(rows: seq<Attempt>, ids: seq<Identifier>, now: int): seq<Attempt> {
    if ids == [] then rows
    else Inserted(rows, ids[..|ids| - 1], now) + [Attempt(ids[|ids| - 1], now)]
  }

  /** DELETE ... WHERE identifier = ANY(ids). */
  function Cleared(rows: seq<Attempt>, ids: seq<Identifier>): seq<Attempt> {
    if rows == [] then []
    else
      var last, earlier := rows[|rows| - 1], Cleared(rows[..|rows| - 1], ids);
      if last.identifier in ids then earlier else earlier + [last]
  }

  /** The moments of one request: the prune, the count, and the insert if it fails. */
  datatype Moments = Moments(prune: int, count: int, insert: int)

  datatype Status = TooMany | Unauthorized | SignedIn

  /** What a sign-in answers, given what the table says and whether the credentials are right. */
  function Answer(rows: seq<Attempt>, ids: seq<Identifier>, m: Moments, correct: bool): Status {
    if Spent(rows, ids, m.count) then TooMany else if correct then SignedIn else Unauthorized
  }

  function Updated(rows: seq<Attempt>, ids: seq<Identifier>, m: Moments, status: Status): seq<Attempt> {
    match status
    case TooMany => rows
    case Unauthorized => Inserted(rows, ids, m.insert)
    case SignedIn => Cleared(rows, ids)
  }

  /** The table is a bag of rows: pruning takes out the expired ones, every copy, and no other. */
  lemma {:induction false} RetainKeeps(rows: seq<Attempt>, cutoff: int, a: Attempt)
    ensures multiset(Retain(rows, cutoff))[a] == if a.at < cutoff then 0 else multiset(rows)[a]
  {
    if rows != [] {
      RetainKeeps(rows[..|rows| - 1], cutoff, a);
      assert rows == rows[..|rows| - 1] + [rows[|rows| - 1]];
    }
  }

  /** Clearing takes out the rows of these identifiers, every copy, and no other. */
  lemma {:induction false} ClearedKeeps(rows: seq<Attempt>, ids: seq<Identifier>, a: Attempt)
    ensures multiset(Cleared(rows, ids))[a] == if a.identifier in ids then 0 else multiset(rows)[a]
  {
    if rows != [] {
      ClearedKeeps(rows[..|rows| - 1], ids, a);
      assert rows == rows[..|rows| - 1] + [rows[|rows| - 1]];
    }
  }

  /** Rows older than the window do not count, so pruning them changes no count. */
  lemma {:induction false} PruningIsInvisible(rows: seq<Attempt>, cutoff: int, id: Identifier, since: int)
    requires cutoff <= since + 1
    ensures CountBetween(Retain(rows, cutoff), id, since, None) == CountBetween(rows, id, since, None)
  {
    if rows != [] {
      var init, last := rows[..|rows| - 1], rows[|rows| - 1];
      PruningIsInvisible(init, cutoff, id, since);
      if last.at >= cutoff {
        assert (Retain(init, cutoff) + [last])[..|Retain(init, cutoff)|] == Retain(init, cutoff);
      }
    }
  }

  /** So whether a budget is spent can be read off the table before or after pruning. */
  lemma SpentEitherWay(rows: seq<Attempt>, ids: seq<Identifier>, m: Moments)
    requires m.prune <= m.count
    ensures Spent(Retain(rows, m.prune - LOGIN_WINDOW), ids, m.count) == Spent(rows, ids, m.count)
  {
    forall i | 0 <= i < |ids|
      ensures CountBetween(Retain(rows, m.prune - LOGIN_WINDOW), ids[i], m.count - LOGIN_WINDOW, None)
              == CountBetween(rows, ids[i], m.count - LOGIN_WINDOW, None)
    {
      PruningIsInvisible(rows, m.prune - LOGIN_WINDOW, ids[i], m.count - LOGIN_WINDOW);
    }
  }

  class LoginAttempts {
    var rows: seq<Attempt>

    constructor ()
      ensures rows == []
    {
      rows := [];
    }

    /** Exactly the expired rows go; the answer is that of the table as it stood. */
    method TooManyFailures(ids: seq<Identifier>, m: Moments) returns (spent: bool)
      modifies this
      ensures rows == Retain(old(rows), m.prune - LOGIN_WINDOW)
      ensures forall a :: multiset(rows)[a] == if a.at < m.prune - LOGIN_WINDOW then 0 else multiset(old(rows))[a]
      ensures spent == Spent(rows, ids, m.count)
      ensures m.prune <= m.count ==>
                (spent <==> exists i :: 0 <= i < |ids| &&
                              CountBetween(old(rows), ids[i], m.count - LOGIN_WINDOW, None) >= MAX_FAILED_LOGINS)
    {
      forall a
        ensures multiset(Retain(rows, m.prune - LOGIN_WINDOW))[a] ==
                if a.at < m.prune - LOGIN_WINDOW then 0 else multiset(rows)[a]
      {
        RetainKeeps(rows, m.prune - LOGIN_WINDOW, a);
      }
      if m.prune <= m.count {
        SpentEitherWay(rows, ids, m);
      }
      rows := Retain(rows, m.prune - LOGIN_WINDOW);
      spent := Spent(rows, ids, m.count);
    }

    method RecordFailure(ids: seq<Identifier>, now: int)
      modifies this
      ensures rows == Inserted(old(rows), ids, now)
    {
      for i := 0 to |ids|
        invariant rows == Inserted(old(rows), ids[..i], now)
      {
        assert ids[..i + 1][..i] == ids[..i];
        rows := rows + [Attempt(ids[i], now)];
      }
      assert ids[..|ids|] == ids;
    }

    /** No row of these identifiers is left, and every other row is. */
    method ClearFailures(ids: seq<Identifier>)
      modifies this
      ensures rows == Cleared(old(rows), ids)
      ensures forall a :: multiset(rows)[a] == if a.identifier in ids then 0 else multiset(old(rows))[a]
    {
      forall a
        ensures multiset(Cleared(rows, ids))[a] == if a.identifier in ids then 0 else multiset(rows)[a]
      {
        ClearedKeeps(rows, ids, a);
      }
      rows := Cleared(rows, ids);
    }

    /** The order of the checks: budget, account, password, and only then the clearing. */
    method Login(
      email: string, caller: Option<string>, known: bool, passwordRight: bool, m: Moments
    ) returns (status: Status)
      modifies this
      ensures var kept, ids := Retain(old(rows), m.prune - LOGIN_WINDOW), Identifiers(email, caller);
              && status == Answer(kept, ids, m, known && passwordRight)
              && rows == Updated(kept, ids, m, status)
    {
      var ids := [Email(email)];
      if caller.Some? {
        ids := ids + [Client(caller.value)];
      }
      assert ids == Identifiers(email, caller);
      var spent := TooManyFailures(ids, m);
      if spent {
        return TooMany;
      }
      if !known {
        RecordFailure(ids, m.insert);
        return Unauthorized;
      }
      if !passwordRight {
        RecordFailure(ids, m.insert);
        return Unauthorized;
      }
      ClearFailures(ids);
      return SignedIn;
    }
  }

  // ---------------------------------------------------------------------------
  // Whole runs: the pruned table beside a history nothing is pruned from
  // ---------------------------------------------------------------------------

  datatype Request = Request(email: string, caller: Option<string>, correct: bool, m: Moments)

  /** `rows` is pruned at every check, `full` never; `cutoff` is the last bound pruned at. */
  datatype World = World(rows: seq<Attempt>, full: seq<Attempt>, cutoff: int, clock: int)

  const START: World := World([], [], -LOGIN_WINDOW, 0)

  predicate InOrder(w: World, r: Request) {
    w.clock <= r.m.prune <= r.m.count <= r.m.insert
  }

  function Next(w: World, r: Request): World {
    var ids := Identifiers(r.email, r.caller);
    var kept := Retain(w.rows, r.m.prune - LOGIN_WINDOW);
    World(
      Updated(kept, ids, r.m, Answer(kept, ids, r.m, r.correct)),
      Updated(w.full, ids, r.m, Answer(w.full, ids, r.m, r.correct)),
      r.m.prune - LOGIN_WINDOW, r.m.insert)
  }

  function Run(requests: seq<Request>): World {
    if requests == [] then START
    else
      var w, r := Run(requests[..|requests| - 1]), requests[|requests| - 1];
      if InOrder(w, r) then Next(w, r) else w
  }

  lemma {:induction false} RetainTwice(rows: seq<Attempt>, a: int, b: int)
    requires a <= b
    ensures Retain(Retain(rows, a), b) == Retain(rows, b)
  {
    if rows != [] {
      var init, last := rows[..|rows| - 1], rows[|rows| - 1];
      RetainTwice(init, a, b);
      if last.at >= a {
        assert (Retain(init, a) + [last])[..|Retain(init, a)|] == Retain(init, a);
      }
    }
  }

  lemma {:induction false} RetainInserted(rows: seq<Attempt>, ids: seq<Identifier>, now: int, cutoff: int)
    requires cutoff <= now
    ensures Retain(Inserted(rows, ids, now), cutoff) == Inserted(Retain(rows, cutoff), ids, now)
  {
    if ids != [] {
      var n := |ids| - 1;
      RetainInserted(rows, ids[..n], now, cutoff);
      var earlier := Inserted(rows, ids[..n], now);
      assert (earlier + [Attempt(ids[n], now)])[..|earlier|] == earlier;
    }
  }

  lemma {:induction false} RetainCleared(rows: seq<Attempt>, ids: seq<Identifier>, cutoff: int)
    ensures Retain(Cleared(rows, ids), cutoff) == Cleared(Retain(rows, cutoff), ids)
  {
    if rows != [] {
      var init, last := rows[..|rows| - 1], rows[|rows| - 1];
      RetainCleared(init, ids, cutoff);
      assert (Cleared(init, ids) + [last])[..|Cleared(init, ids)|] == Cleared(init, ids);
      assert (Retain(init, cutoff) + [last])[..|Retain(init, cutoff)|] == Retain(init, cutoff);
    }
  }

  /** The table is the full history without what lies before the last prune, and that is long ago. */
  predicate Pruned(w: World) {
    w.rows == Retain(w.full, w.cutoff) && w.cutoff <= w.clock - LOGIN_WINDOW
  }

  lemma {:induction false} RunStaysPruned(requests: seq<Request>)
    ensures Pruned(Run(requests))
  {
    if requests != [] {
      RunStaysPruned(requests[..|requests| - 1]);
      var w, r := Run(requests[..|requests| - 1]), requests[|requests| - 1];
      if InOrder(w, r) {
        NextStaysPruned(w, r);
      }
    }
  }

  lemma NextStaysPruned(w: World, r: Request)
    requires Pruned(w) && InOrder(w, r)
    ensures Pruned(Next(w, r))
    ensures var kept, ids := Retain(w.rows, r.m.prune - LOGIN_WINDOW), Identifiers(r.email, r.caller);
            Answer(kept, ids, r.m, r.correct) == Answer(w.full, ids, r.m, r.correct)
  {
    var ids, cutoff := Identifiers(r.email, r.caller), r.m.prune - LOGIN_WINDOW;
    RetainTwice(w.full, w.cutoff, cutoff);
    SpentEitherWay(w.full, ids, r.m);
    RetainUpdated(w.full, ids, r.m, Answer(w.full, ids, r.m, r.correct), cutoff);
  }

  lemma RetainUpdated(rows: seq<Attempt>, ids: seq<Identifier>, m: Moments, status: Status, cutoff: int)
    requires cutoff <= m.insert
    ensures Retain(Updated(rows, ids, m, status), cutoff) == Updated(Retain(rows, cutoff), ids, m, status)
  {
    match status
    case TooMany =>
    case Unauthorized => RetainInserted(rows, ids, m.insert, cutoff);
    case SignedIn => RetainCleared(rows, ids, cutoff);
  }

  /** Deleting expired rows never changes an answer: every request is answered as the full history would. */
  lemma PrunedTableAnswersAsHistory(requests: seq<Request>, r: Request)
    requires InOrder(Run(requests), r)
    ensures var w, ids := Run(requests), Identifiers(r.email, r.caller);
            Answer(Retain(w.rows, r.m.prune - LOGIN_WINDOW), ids, r.m, r.correct) == Answer(w.full, ids, r.m, r.correct)
  {
    RunStaysPruned(requests);
    NextStaysPruned(Run(requests), r);
  }

  // ---------------------------------------------------------------------------
  // The budget
  // ---------------------------------------------------------------------------

  /** No window of the given length, wherever it starts, holds more failures than the budget. */
  ghost predicate WithinBudget(rows: seq<Attempt>) {
    forall id, t :: InWindow(rows, id, t) <= MAX_FAILED_LOGINS
  }

  /** Failures of one identifier at `t` or later, before `t` plus the window. */
  function InWindow(rows: seq<Attempt>, id: Identifier, t: int): nat {
    CountBetween(rows, id, t - 1, Some(t + LOGIN_WINDOW))
  }

  lemma {:induction false} NarrowerCountsFewer(
    rows: seq<Attempt>, id: Identifier, since: int, until: Option<int>, earlier: int
  )
    requires earlier <= since
    ensures CountBetween(rows, id, since, until) <= CountBetween(rows, id, earlier, None)
  {
    if rows != [] {
      NarrowerCountsFewer(rows[..|rows| - 1], id, since, until, earlier);
    }
  }

  lemma CountOneMore(rows: seq<Attempt>, a: Attempt, id: Identifier, since: int, until: Option<int>)
    ensures CountBetween(rows + [a], id, since, until) ==
            CountBetween(rows, id, since, until)
            + if a.identifier == id && since < a.at && (until.None? || a.at < until.value) then 1 else 0
  {
    assert (rows + [a])[..|rows|] == rows;
  }

  lemma ClearedLonger(rows: seq<Attempt>, a: Attempt, ids: seq<Identifier>)
    ensures Cleared(rows + [a], ids) == if a.identifier in ids then Cleared(rows, ids) else Cleared(rows, ids) + [a]
  {
    assert (rows + [a])[..|rows|] == rows;
  }

  lemma {:induction false} ClearedCounts(
    rows: seq<Attempt>, ids: seq<Identifier>, id: Identifier, since: int, until: Option<int>
  )
    ensures CountBetween(Cleared(rows, ids), id, since, until) ==
            if id in ids then 0 else CountBetween(rows, id, since, until)
  {
    if rows != [] {
      var init, last := rows[..|rows| - 1], rows[|rows| - 1];
      assert rows == init + [last];
      ClearedCounts(init, ids, id, since, until);
      ClearedLonger(init, last, ids);
      CountOneMore(init, last, id, since, until);
      CountOneMore(Cleared(init, ids), last, id, since, until);
    }
  }

  /** A failed request adds at most one row for each identifier, at its own moment. */
  lemma {:induction false} InsertedCounts(
    rows: seq<Attempt>, ids: seq<Identifier>, now: int, id: Identifier, since: int, until: Option<int>
  )
    requires forall i, j :: 0 <= i < j < |ids| ==> ids[i] != ids[j]
    ensures CountBetween(Inserted(rows, ids, now), id, since, until) ==
            CountBetween(rows, id, since, until)
            + if id in ids && since < now && (until.None? || now < until.value) then 1 else 0
  {
    if ids != [] {
      var n := |ids| - 1;
      var earlier := Inserted(rows, ids[..n], now);
      InsertedCounts(rows, ids[..n], now, id, since, until);
      CountOneMore(earlier, Attempt(ids[n], now), id, since, until);
      assert id in ids <==> id in ids[..n] || id == ids[n];
    }
  }

  /** With budget left in the window ending at the check, one more failure exceeds it in no window. */
  lemma OneMoreFailure(rows: seq<Attempt>, ids: seq<Identifier>, m: Moments, id: Identifier, t: int)
    requires forall i, j :: 0 <= i < j < |ids| ==> ids[i] != ids[j]
    requires !Spent(rows, ids, m.count) && m.count <= m.insert && InWindow(rows, id, t) <= MAX_FAILED_LOGINS
    ensures InWindow(Inserted(rows, ids, m.insert), id, t) <= MAX_FAILED_LOGINS
  {
    InsertedCounts(rows, ids, m.insert, id, t - 1, Some(t + LOGIN_WINDOW));
    if id in ids && t - 1 < m.insert < t + LOGIN_WINDOW {
      NarrowerCountsFewer(rows, id, t - 1, Some(t + LOGIN_WINDOW), m.count - LOGIN_WINDOW);
      var i :| 0 <= i < |ids| && ids[i] == id;
      assert CountBetween(rows, ids[i], m.count - LOGIN_WINDOW, None) < MAX_FAILED_LOGINS;
    }
  }

  /** A request is let through only while each of its identifiers has budget left in the window. */
  lemma NextWithinBudget(w: World, r: Request)
    requires WithinBudget(w.full) && InOrder(w, r)
    ensures WithinBudget(Next(w, r).full)
  {
    var ids := Identifiers(r.email, r.caller);
    var status := Answer(w.full, ids, r.m, r.correct);
    forall id, t
      ensures InWindow(Updated(w.full, ids, r.m, status), id, t) <= MAX_FAILED_LOGINS
    {
      assert InWindow(w.full, id, t) <= MAX_FAILED_LOGINS;
      match status
      case TooMany =>
      case SignedIn => ClearedCounts(w.full, ids, id, t - 1, Some(t + LOGIN_WINDOW));
      case Unauthorized => OneMoreFailure(w.full, ids, r.m, id, t);
    }
  }

  /**
   * In every run: between sign-ins that clear it, no identifier has more than the budget of
   * failures recorded in any half-open interval of the window's length.
   */
  lemma {:induction false} BudgetHolds(requests: seq<Request>)
    ensures WithinBudget(Run(requests).full)
  {
    if requests != [] {
      BudgetHolds(requests[..|requests| - 1]);
      var w, r := Run(requests[..|requests| - 1]), requests[|requests| - 1];
      if InOrder(w, r) {
        NextWithinBudget(w, r);
      }
    }
  }

  // ---------------------------------------------------------------------------
  // The budget, by the answers given
  // ---------------------------------------------------------------------------

  datatype Answered = Answered(request: Request, status: Status)

  function AnswerTo(w: World, r: Request): Status {
    Answer(Retain(w.rows, r.m.prune - LOGIN_WINDOW), Identifiers(r.email, r.caller), r.m, r.correct)
  }

  /** What was asked and answered so far; a request out of order is not made. */
  function Log(requests: seq<Request>): seq<Answered> {
    if requests == [] then []
    else
      var w, r := Run(requests[..|requests| - 1]), requests[|requests| - 1];
      Log(requests[..|requests| - 1]) + if InOrder(w, r) then [Answered(r, AnswerTo(w, r))] else []
  }

  /** The request counts against the identifier: its address, or the client it came from. */
  predicate Concerns(r: Request, id: Identifier) {
    id == Email(r.email) || (r.caller.Some? && id == Client(r.caller.value))
  }

  predicate Clears(entry: Answered, id: Identifier) {
    entry.status == SignedIn && Concerns(entry.request, id)
  }

  ghost predicate NoneClears(log: seq<Answered>, id: Identifier, k: nat) {
    forall j :: k < j < |log| ==> !Clears(log[j], id)
  }

  /** A wrong password for the identifier, later than `since`. */
  predicate Fails(entry: Answered, id: Identifier, since: int) {
    entry.status == Unauthorized && Concerns(entry.request, id) && entry.request.m.insert > since
  }

  /** Those that no sign-in for the identifier has come after. */
  ghost function CountedFailures(log: seq<Answered>, id: Identifier, since: int): set<nat> {
    set k: nat | k < |log| && Fails(log[k], id, since) && NoneClears(log, id, k)
  }

  lemma NoneClearsFurther(log: seq<Answered>, entry: Answered, id: Identifier, k: nat)
    requires k < |log|
    ensures NoneClears(log + [entry], id, k) <==> !Clears(entry, id) && NoneClears(log, id, k)
  {
    var longer := log + [entry];
    assert longer[|log|] == entry;
    forall j | k < j < |log|
      ensures longer[j] == log[j]
    {
    }
  }

  lemma OneMoreAnswer(log: seq<Answered>, entry: Answered, id: Identifier, since: int)
    ensures CountedFailures(log + [entry], id, since) ==
            if Clears(entry, id) then {}
            else CountedFailures(log, id, since) + if Fails(entry, id, since) then {|log|} else {}
  {
    var longer, n := log + [entry], |log|;
    assert longer[n] == entry;
    forall k: nat | k < n
      ensures longer[k] == log[k]
      ensures NoneClears(longer, id, k) <==> !Clears(entry, id) && NoneClears(log, id, k)
    {
      NoneClearsFurther(log, entry, id, k);
    }
  }

  lemma Concerned(r: Request, id: Identifier)
    ensures id in Identifiers(r.email, r.caller) <==> Concerns(r, id)
  {
    var ids := Identifiers(r.email, r.caller);
    assert ids[0] == Email(r.email) && (r.caller.Some? ==> ids[1] == Client(r.caller.value));
  }

  /** The rows of the table are the failures that count. */
  lemma {:induction false} RowsAreFailures(requests: seq<Request>, id: Identifier, since: int)
    ensures CountBetween(Run(requests).full, id, since, None) == |CountedFailures(Log(requests), id, since)|
  {
    if requests == [] {
      assert CountedFailures([], id, since) == {};
    } else {
      var init, r := requests[..|requests| - 1], requests[|requests| - 1];
      RowsAreFailures(init, id, since);
      if InOrder(Run(init), r) {
        RunStaysPruned(init);
        NextStaysPruned(Run(init), r);
        var status := AnswerTo(Run(init), r);
        AnswerCounts(Run(init).full, Log(init), r, status, id, since);
        assert Run(requests).full == Updated(Run(init).full, Identifiers(r.email, r.caller), r.m, status);
        assert Log(requests) == Log(init) + [Answered(r, status)];
      } else {
        assert Log(requests) == Log(init);
      }
    }
  }

  lemma AnswerCounts(full: seq<Attempt>, log: seq<Answered>, r: Request, status: Status, id: Identifier, since: int)
    requires CountBetween(full, id, since, None) == |CountedFailures(log, id, since)|
    ensures CountBetween(Updated(full, Identifiers(r.email, r.caller), r.m, status), id, since, None)
            == |CountedFailures(log + [Answered(r, status)], id, since)|
  {
    var ids := Identifiers(r.email, r.caller);
    OneMoreAnswer(log, Answered(r, status), id, since);
    Concerned(r, id);
    match status
    case TooMany =>
    case Unauthorized => InsertedCounts(full, ids, r.m.insert, id, since, None);
    case SignedIn => ClearedCounts(full, ids, id, since, None);
  }

  /** Some identifier of the request has had ten wrong passwords in the window, with no sign-in since. */
  ghost predicate BudgetSpent(log: seq<Answered>, r: Request, since: int) {
    exists id :: Concerns(r, id) && |CountedFailures(log, id, since)| >= MAX_FAILED_LOGINS
  }

  lemma SpentIff(full: seq<Attempt>, log: seq<Answered>, r: Request, since: int)
    requires since == r.m.count - LOGIN_WINDOW
    requires forall id :: CountBetween(full, id, since, None) == |CountedFailures(log, id, since)|
    ensures Spent(full, Identifiers(r.email, r.caller), r.m.count) <==> BudgetSpent(log, r, since)
  {
    var ids := Identifiers(r.email, r.caller);
    if Spent(full, ids, r.m.count) {
      var i :| 0 <= i < |ids| && CountBetween(full, ids[i], since, None) >= MAX_FAILED_LOGINS;
      Concerned(r, ids[i]);
    }
    if BudgetSpent(log, r, since) {
      var id :| Concerns(r, id) && |CountedFailures(log, id, since)| >= MAX_FAILED_LOGINS;
      Concerned(r, id);
      var i :| 0 <= i < |ids| && ids[i] == id;
    }
  }

  lemma TableSpentIff(requests: seq<Request>, r: Request, since: int)
    requires since == r.m.count - LOGIN_WINDOW
    ensures Spent(Run(requests).full, Identifiers(r.email, r.caller), r.m.count) <==>
            BudgetSpent(Log(requests), r, since)
  {
    forall id
      ensures CountBetween(Run(requests).full, id, since, None) == |CountedFailures(Log(requests), id, since)|
    {
      RowsAreFailures(requests, id, since);
    }
    SpentIff(Run(requests).full, Log(requests), r, since);
  }

  /**
   * In every run a request is turned away if and only if one of its identifiers has had ten wrong
   * passwords within the window, none of them followed by a sign-in. Otherwise it is answered by
   * its credentials. So ten failures lock an identifier out, and a sign-in gives the budget back.
   */
  lemma TurnedAwayIff(requests: seq<Request>, r: Request)
    requires InOrder(Run(requests), r)
    ensures AnswerTo(Run(requests), r) ==
            if BudgetSpent(Log(requests), r, r.m.count - LOGIN_WINDOW) then TooMany
            else if r.correct then SignedIn else Unauthorized
  {
    PrunedTableAnswersAsHistory(requests, r);
    TableSpentIff(requests, r, r.m.count - LOGIN_WINDOW);
    DecidedBy(Run(requests), r, BudgetSpent(Log(requests), r, r.m.count - LOGIN_WINDOW));
  }

  lemma DecidedBy(w: World, r: Request, spent: bool)
    requires AnswerTo(w, r) == Answer(w.full, Identifiers(r.email, r.caller), r.m, r.correct)
    requires Spent(w.full, Identifiers(r.email, r.caller), r.m.count) <==> spent
    ensures AnswerTo(w, r) == if spent then TooMany else if r.correct then SignedIn else Unauthorized
  {
  }
}

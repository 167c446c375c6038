/**
 * A truncated evaluation run still has every kind of article in it (`load_gold` in
 * src/evals/run_eval.py): the rows are dealt round-robin across kinds.
 */
module GoldSample {
  import opened Wrappers

  /** The kinds `gold_articles` admits. */
  datatype Kind = Neutral | Loaded | Borderline | QuotedSpeech

  datatype GoldRow = GoldRow(id: nat, kind: Kind)

  function OfKind(rows: seq<GoldRow>, kind: Kind): seq<GoldRow> {
    if rows == [] then []
    else
      var last, earlier := rows[|rows| - 1], OfKind(rows[..|rows| - 1], kind);
      if last.kind == kind then earlier + [last] else earlier
  }

  lemma OneMore(rows: seq<GoldRow>, row: GoldRow, kind: Kind)
    ensures OfKind(rows + [row], kind) == if row.kind == kind then OfKind(rows, kind) + [row] else OfKind(rows, kind)
  {
    assert (rows + [row])[..|rows|] == rows;
  }

  /** The position of the first row of a kind; past the end when there is none. */
  function FirstAt(rows: seq<GoldRow>, kind: Kind): (p: nat)
    ensures p <= |rows|
    ensures p < |rows| ==> rows[p].kind == kind
    ensures forall i :: 0 <= i < p ==> rows[i].kind != kind
  {
    if rows == [] then 0
    else
      var n := |rows| - 1;
      var p := FirstAt(rows[..n], kind);
      assert forall i :: 0 <= i < n ==> rows[..n][i] == rows[i];
      if p < n then p else if rows[n].kind == kind then n else n + 1
  }

  /** No kind is more than one pick ahead of a kind that still has rows to give. */
  ghost predicate OneBehind(rows: seq<GoldRow>, picked: seq<GoldRow>) {
    forall j, k :: |OfKind(picked, k)| < |OfKind(rows, k)| ==> |OfKind(picked, j)| <= |OfKind(picked, k)| + 1
  }

  /** No kind is behind one that first appears after it, unless it has given all it had. */
  ghost predicate EarlierFirst(rows: seq<GoldRow>, picked: seq<GoldRow>) {
    forall j, k :: FirstAt(rows, j) < FirstAt(rows, k) ==>
      |OfKind(picked, j)| >= Min(|OfKind(picked, k)|, |OfKind(rows, j)|)
  }

  ghost predicate Fair(rows: seq<GoldRow>, picked: seq<GoldRow>) {
    OneBehind(rows, picked) && EarlierFirst(rows, picked)
  }

  /** The kinds stand in the order they first appear in. */
  ghost predicate InFirstOrder(rows: seq<GoldRow>, order: seq<Kind>) {
    && (forall i :: 0 <= i < |order| ==> FirstAt(rows, order[i]) < |rows|)
    && (forall i, j :: 0 <= i < j < |order| ==> FirstAt(rows, order[i]) < FirstAt(rows, order[j]))
  }

  lemma FirstAtLonger(rows: seq<GoldRow>, row: GoldRow, kind: Kind)
    ensures FirstAt(rows + [row], kind) ==
            if FirstAt(rows, kind) < |rows| then FirstAt(rows, kind)
            else if row.kind == kind then |rows| else |rows| + 1
  {
    assert (rows + [row])[..|rows|] == rows;
  }

  lemma FirstAtKnown(rows: seq<GoldRow>, kind: Kind)
    ensures FirstAt(rows, kind) < |rows| <==> OfKind(rows, kind) != []
  {
    if rows != [] {
      FirstAtKnown(rows[..|rows| - 1], kind);
    }
  }

  /** So it was after every single pick. */
  ghost predicate AlwaysFair(rows: seq<GoldRow>, picked: seq<GoldRow>) {
    forall n :: 0 <= n <= |picked| ==> Fair(rows, picked[..n])
  }

  function Min(a: int, b: int): int {
    if a <= b then a else b
  }

  function Max(a: int, b: int): int {
    if a >= b then a else b
  }

  // ---------------------------------------------------------------------------
  // Buckets
  // ---------------------------------------------------------------------------

  /** Each kind in order of first appearance, and the rows it still holds. */
  ghost predicate BucketsOf(rows: seq<GoldRow>, order: seq<Kind>, buckets: map<Kind, seq<GoldRow>>) {
    && (forall i, j :: 0 <= i < j < |order| ==> order[i] != order[j])
    && InFirstOrder(rows, order)
    && (forall kind :: kind in buckets <==> kind in order)
    && (forall kind :: kind in order ==> buckets[kind] == OfKind(rows, kind))
    && (forall kind :: kind !in order ==> OfKind(rows, kind) == [])
  }

  lemma KnownKind(rows: seq<GoldRow>, row: GoldRow, order: seq<Kind>, buckets: map<Kind, seq<GoldRow>>)
    requires BucketsOf(rows, order, buckets) && row.kind in order
    ensures BucketsOf(rows + [row], order, buckets[row.kind := buckets[row.kind] + [row]])
  {
    forall kind: Kind
      ensures OfKind(rows + [row], kind) == if row.kind == kind then OfKind(rows, kind) + [row] else OfKind(rows, kind)
    {
      OneMore(rows, row, kind);
    }
    KnownOrder(rows, row, order);
  }

  lemma KnownOrder(rows: seq<GoldRow>, row: GoldRow, order: seq<Kind>)
    requires InFirstOrder(rows, order)
    ensures InFirstOrder(rows + [row], order)
  {
    forall i | 0 <= i < |order|
      ensures FirstAt(rows + [row], order[i]) == FirstAt(rows, order[i])
    {
      FirstAtLonger(rows, row, order[i]);
    }
  }

  lemma NewOrder(rows: seq<GoldRow>, row: GoldRow, order: seq<Kind>)
    requires InFirstOrder(rows, order) && OfKind(rows, row.kind) == []
    ensures InFirstOrder(rows + [row], order + [row.kind])
  {
    KnownOrder(rows, row, order);
    FirstAtLonger(rows, row, row.kind);
    FirstAtKnown(rows, row.kind);
    forall i | 0 <= i < |order|
      ensures FirstAt(rows + [row], order[i]) < |rows|
    {
      FirstAtLonger(rows, row, order[i]);
    }
  }

  lemma NewKind(rows: seq<GoldRow>, row: GoldRow, order: seq<Kind>, buckets: map<Kind, seq<GoldRow>>)
    requires BucketsOf(rows, order, buckets) && row.kind !in order
    ensures BucketsOf(rows + [row], order + [row.kind], buckets[row.kind := [row]])
  {
    forall kind: Kind
      ensures OfKind(rows + [row], kind) == if row.kind == kind then OfKind(rows, kind) + [row] else OfKind(rows, kind)
    {
      OneMore(rows, row, kind);
    }
    NewOrder(rows, row, order);
  }

  method BucketRows(rows: seq<GoldRow>) returns (order: seq<Kind>, buckets: map<Kind, seq<GoldRow>>)
    ensures BucketsOf(rows, order, buckets)
  {
    order, buckets := [], map[];
    for i := 0 to |rows|
      invariant BucketsOf(rows[..i], order, buckets)
    {
      var row := rows[i];
      assert rows[..i + 1] == rows[..i] + [row];
      if row.kind in buckets {
        KnownKind(rows[..i], row, order, buckets);
        buckets := buckets[row.kind := buckets[row.kind] + [row]];
      } else {
        NewKind(rows[..i], row, order, buckets);
        order := order + [row.kind];
        buckets := buckets[row.kind := [row]];
      }
    }
    assert rows[..|rows|] == rows;
  }

  // ---------------------------------------------------------------------------
  // Dealing
  // ---------------------------------------------------------------------------

  /**
   * In round `r`, with the first `c` kinds served: those have given r + 1 rows, or all they had,
   * and the others r rows, or all they had.
   */
  ghost predicate Dealt(rows: seq<GoldRow>, order: seq<Kind>, picked: seq<GoldRow>, r: nat, c: nat)
    requires c <= |order|
  {
    && (forall i :: 0 <= i < |order| ==>
          |OfKind(picked, order[i])| == Min(if i < c then r + 1 else r, |OfKind(rows, order[i])|))
  }

  /** The place of a kind in the dealing order, if it has rows at all. */
  lemma DealtKind(rows: seq<GoldRow>, order: seq<Kind>, picked: seq<GoldRow>, r: nat, c: nat, kind: Kind)
    returns (place: nat)
    requires c <= |order| && Dealt(rows, order, picked, r, c)
    requires kind !in order ==> OfKind(rows, kind) == OfKind(picked, kind) == []
    ensures OfKind(rows, kind) == [] ==> OfKind(picked, kind) == []
    ensures OfKind(rows, kind) != [] ==>
              && place < |order| && order[place] == kind
              && |OfKind(picked, kind)| == Min(if place < c then r + 1 else r, |OfKind(rows, kind)|)
  {
    if kind in order {
      place :| 0 <= place < |order| && order[place] == kind;
    } else {
      place := 0;
    }
  }

  lemma DealtOneBehind(rows: seq<GoldRow>, order: seq<Kind>, picked: seq<GoldRow>, r: nat, c: nat)
    requires c <= |order| && Dealt(rows, order, picked, r, c)
    requires forall kind :: kind !in order ==> OfKind(rows, kind) == OfKind(picked, kind) == []
    ensures OneBehind(rows, picked)
  {
    forall j, k | |OfKind(picked, k)| < |OfKind(rows, k)|
      ensures |OfKind(picked, j)| <= |OfKind(picked, k)| + 1
    {
      var jj := DealtKind(rows, order, picked, r, c, j);
      var kk := DealtKind(rows, order, picked, r, c, k);
    }
  }

  lemma DealtEarlierFirst(rows: seq<GoldRow>, order: seq<Kind>, picked: seq<GoldRow>, r: nat, c: nat)
    requires c <= |order| && Dealt(rows, order, picked, r, c) && InFirstOrder(rows, order)
    requires forall kind :: kind !in order ==> OfKind(rows, kind) == OfKind(picked, kind) == []
    ensures EarlierFirst(rows, picked)
  {
    forall j, k | FirstAt(rows, j) < FirstAt(rows, k)
      ensures |OfKind(picked, j)| >= Min(|OfKind(picked, k)|, |OfKind(rows, j)|)
    {
      var jj := DealtKind(rows, order, picked, r, c, j);
      var kk := DealtKind(rows, order, picked, r, c, k);
    }
  }

  lemma DealtIsFair(rows: seq<GoldRow>, order: seq<Kind>, picked: seq<GoldRow>, r: nat, c: nat)
    requires c <= |order| && Dealt(rows, order, picked, r, c) && InFirstOrder(rows, order)
    requires forall kind :: kind !in order ==> OfKind(rows, kind) == OfKind(picked, kind) == []
    ensures Fair(rows, picked)
  {
    DealtOneBehind(rows, order, picked, r, c);
    DealtEarlierFirst(rows, order, picked, r, c);
  }

  /** The buckets hold exactly what has not been picked, and what was picked came off their fronts. */
  ghost predicate Holding(
    rows: seq<GoldRow>, order: seq<Kind>, buckets: map<Kind, seq<GoldRow>>, picked: seq<GoldRow>
  ) {
    && (forall kind :: kind in buckets <==> kind in order)
    && (forall kind :: kind in order ==> OfKind(rows, kind) == OfKind(picked, kind) + buckets[kind])
    && (forall kind :: kind !in order ==> OfKind(rows, kind) == OfKind(picked, kind) == [])
  }

  /** Picking a row of kind `order[c]` changes that kind's picks only. */
  lemma PickedOf(order: seq<Kind>, picked: seq<GoldRow>, row: GoldRow, c: nat, i: nat)
    requires c < |order| && row.kind == order[c] && i < |order|
    requires forall i, j :: 0 <= i < j < |order| ==> order[i] != order[j]
    ensures |OfKind(picked + [row], order[i])| == |OfKind(picked, order[i])| + if i == c then 1 else 0
  {
    OneMore(picked, row, order[i]);
  }

  lemma PickDealt(rows: seq<GoldRow>, order: seq<Kind>, picked: seq<GoldRow>, row: GoldRow, r: nat, c: nat)
    requires c < |order| && Dealt(rows, order, picked, r, c) && row.kind == order[c]
    requires forall i, j :: 0 <= i < j < |order| ==> order[i] != order[j]
    requires |OfKind(picked, order[c])| < |OfKind(rows, order[c])|
    ensures Dealt(rows, order, picked + [row], r, c + 1)
  {
    forall i | 0 <= i < |order|
      ensures |OfKind(picked + [row], order[i])| == Min(if i < c + 1 then r + 1 else r, |OfKind(rows, order[i])|)
    {
      PickedOf(order, picked, row, c, i);
    }
  }

  /** A pick moves the front of its kind's bucket to the end of that kind's picks. */
  lemma MovedOver(rows: seq<GoldRow>, picked: seq<GoldRow>, bucket: seq<GoldRow>, row: GoldRow)
    requires OfKind(rows, row.kind) == OfKind(picked, row.kind) + bucket
    requires bucket != [] && bucket[0] == row
    ensures OfKind(rows, row.kind) == OfKind(picked + [row], row.kind) + bucket[1..]
  {
    OneMore(picked, row, row.kind);
    assert bucket == [row] + bucket[1..];
  }

  lemma PickHolds(
    rows: seq<GoldRow>, order: seq<Kind>, buckets: map<Kind, seq<GoldRow>>, picked: seq<GoldRow>, row: GoldRow
  )
    requires row.kind in order && Holding(rows, order, buckets, picked)
    requires buckets[row.kind] != [] && buckets[row.kind][0] == row
    ensures Holding(rows, order, buckets[row.kind := buckets[row.kind][1..]], picked + [row])
  {
    MovedOver(rows, picked, buckets[row.kind], row);
    forall kind | kind != row.kind
      ensures OfKind(picked + [row], kind) == OfKind(picked, kind)
    {
      OneMore(picked, row, kind);
    }
  }

  lemma PickOne(
    rows: seq<GoldRow>, order: seq<Kind>, buckets: map<Kind, seq<GoldRow>>, picked: seq<GoldRow>, r: nat, c: nat
  )
    requires c < |order| && Holding(rows, order, buckets, picked) && Dealt(rows, order, picked, r, c)
    requires forall i, j :: 0 <= i < j < |order| ==> order[i] != order[j]
    requires buckets[order[c]] != [] && buckets[order[c]][0].kind == order[c]
    ensures var next := picked + [buckets[order[c]][0]];
            && Holding(rows, order, buckets[order[c] := buckets[order[c]][1..]], next)
            && Dealt(rows, order, next, r, c + 1)
  {
    var row := buckets[order[c]][0];
    assert |OfKind(rows, order[c])| == |OfKind(picked, order[c])| + |buckets[order[c]]|;
    PickHolds(rows, order, buckets, picked, row);
    PickDealt(rows, order, picked, row, r, c);
  }

  lemma SkipEmpty(
    rows: seq<GoldRow>, order: seq<Kind>, buckets: map<Kind, seq<GoldRow>>, picked: seq<GoldRow>, r: nat, c: nat
  )
    requires c < |order| && Holding(rows, order, buckets, picked) && Dealt(rows, order, picked, r, c)
    requires buckets[order[c]] == []
    ensures Dealt(rows, order, picked, r, c + 1)
  {
    assert OfKind(rows, order[c]) == OfKind(picked, order[c]);
  }

  lemma {:induction false} OfKindHasKind(rows: seq<GoldRow>, kind: Kind)
    ensures forall row :: row in OfKind(rows, kind) ==> row.kind == kind
  {
    if rows != [] {
      OfKindHasKind(rows[..|rows| - 1], kind);
    }
  }

  lemma {:induction false} CountsAddUp(rows: seq<GoldRow>)
    ensures |rows| ==
            |OfKind(rows, Neutral)| + |OfKind(rows, Loaded)| + |OfKind(rows, Borderline)| + |OfKind(rows, QuotedSpeech)|
  {
    if rows != [] {
      CountsAddUp(rows[..|rows| - 1]);
    }
  }

  /** With every bucket empty, everything has been picked. */
  lemma NothingLeft(rows: seq<GoldRow>, order: seq<Kind>, buckets: map<Kind, seq<GoldRow>>, picked: seq<GoldRow>)
    requires Holding(rows, order, buckets, picked)
    requires forall kind :: kind in order ==> buckets[kind] == []
    ensures |picked| == |rows|
  {
    CountsAddUp(rows);
    CountsAddUp(picked);
    forall kind: Kind
      ensures |OfKind(rows, kind)| == |OfKind(picked, kind)|
    {
    }
  }

  /** Each kind's picks are the front of its own rows, so there are never more picks than rows. */
  lemma PrefixesOf(rows: seq<GoldRow>, order: seq<Kind>, buckets: map<Kind, seq<GoldRow>>, picked: seq<GoldRow>)
    requires Holding(rows, order, buckets, picked)
    ensures forall kind :: OfKind(picked, kind) <= OfKind(rows, kind)
    ensures |picked| <= |rows|
  {
    forall kind: Kind
      ensures OfKind(picked, kind) <= OfKind(rows, kind)
    {
    }
    CountsAddUp(rows);
    CountsAddUp(picked);
  }

  /** What holds whenever the dealing may stop: served so far, fairly so at every pick. */
  ghost predicate Dealing(
    rows: seq<GoldRow>, order: seq<Kind>, buckets: map<Kind, seq<GoldRow>>, picked: seq<GoldRow>, r: nat, c: nat
  )
    requires c <= |order|
  {
    && (forall i, j :: 0 <= i < j < |order| ==> order[i] != order[j])
    && InFirstOrder(rows, order)
    && Holding(rows, order, buckets, picked)
    && Dealt(rows, order, picked, r, c)
    && AlwaysFair(rows, picked)
  }

  lemma DealOne(
    rows: seq<GoldRow>, order: seq<Kind>, buckets: map<Kind, seq<GoldRow>>, picked: seq<GoldRow>, r: nat, c: nat
  )
    requires c < |order| && Dealing(rows, order, buckets, picked, r, c)
    requires buckets[order[c]] != []
    ensures Dealing(rows, order, buckets[order[c] := buckets[order[c]][1..]], picked + [buckets[order[c]][0]], r, c + 1)
  {
    var row := buckets[order[c]][0];
    OfKindHasKind(rows, order[c]);
    assert row in OfKind(rows, order[c]) by {
      assert OfKind(rows, order[c])[|OfKind(picked, order[c])|] == row;
    }
    PickOne(rows, order, buckets, picked, r, c);
    DealtIsFair(rows, order, picked + [row], r, c + 1);
    StillFair(rows, picked, row);
  }

  lemma StillFair(rows: seq<GoldRow>, picked: seq<GoldRow>, row: GoldRow)
    requires AlwaysFair(rows, picked) && Fair(rows, picked + [row])
    ensures AlwaysFair(rows, picked + [row])
  {
    forall n | 0 <= n <= |picked| + 1
      ensures Fair(rows, (picked + [row])[..n])
    {
      if n <= |picked| {
        assert (picked + [row])[..n] == picked[..n];
      } else {
        assert (picked + [row])[..n] == picked + [row];
      }
    }
  }

  /** A finished round is the start of the next one. */
  lemma NextRound(rows: seq<GoldRow>, order: seq<Kind>, buckets: map<Kind, seq<GoldRow>>, picked: seq<GoldRow>, r: nat)
    requires Dealing(rows, order, buckets, picked, r, |order|)
    ensures Dealing(rows, order, buckets, picked, r + 1, 0)
  {
  }

  lemma Begin(rows: seq<GoldRow>, order: seq<Kind>, buckets: map<Kind, seq<GoldRow>>)
    requires BucketsOf(rows, order, buckets)
    ensures Dealing(rows, order, buckets, [], 0, 0)
  {
    var none: seq<GoldRow> := [];
    assert none[..0] == none;
    forall kind: Kind
      ensures OfKind(none, kind) == []
    {
    }
  }

  predicate NothingIn(buckets: map<Kind, seq<GoldRow>>, kind: Kind) {
    kind in buckets ==> buckets[kind] == []
  }

  predicate AnyLeft(order: seq<Kind>, buckets: map<Kind, seq<GoldRow>>)
    requires forall kind :: kind in order ==> kind in buckets
  {
    exists i :: 0 <= i < |order| && !NothingIn(buckets, order[i])
  }

  /**
   * Within a round, after `i` kinds: `c` of them have been dealt with, all of them unless the
   * limit was reached, and while nothing was picked they were all empty.
   */
  ghost predicate InRound(
    rows: seq<GoldRow>, order: seq<Kind>, start: map<Kind, seq<GoldRow>>, before: seq<GoldRow>,
    buckets: map<Kind, seq<GoldRow>>, picked: seq<GoldRow>, limit: int, r: nat, c: nat, i: nat
  ) {
    && c <= i <= |order| && Dealing(rows, order, buckets, picked, r, c)
    && (c == i || |picked| == limit)
    && |before| < limit && |before| <= |picked| <= limit
    && (|picked| == |before| ==> buckets == start && forall j :: 0 <= j < i ==> NothingIn(start, order[j]))
  }

  lemma RoundPicks(
    rows: seq<GoldRow>, order: seq<Kind>, start: map<Kind, seq<GoldRow>>, before: seq<GoldRow>,
    buckets: map<Kind, seq<GoldRow>>, picked: seq<GoldRow>, limit: int, r: nat, i: nat
  )
    requires i < |order| && InRound(rows, order, start, before, buckets, picked, limit, r, i, i)
    requires |picked| < limit && buckets[order[i]] != []
    ensures InRound(rows, order, start, before, buckets[order[i] := buckets[order[i]][1..]],
                    picked + [buckets[order[i]][0]], limit, r, i + 1, i + 1)
  {
    DealOne(rows, order, buckets, picked, r, i);
  }

  lemma RoundSkips(
    rows: seq<GoldRow>, order: seq<Kind>, start: map<Kind, seq<GoldRow>>, before: seq<GoldRow>,
    buckets: map<Kind, seq<GoldRow>>, picked: seq<GoldRow>, limit: int, r: nat, i: nat
  )
    requires i < |order| && InRound(rows, order, start, before, buckets, picked, limit, r, i, i)
    requires buckets[order[i]] == []
    ensures InRound(rows, order, start, before, buckets, picked, limit, r, i + 1, i + 1)
  {
    SkipEmpty(rows, order, buckets, picked, r, i);
  }

  /** One kind of a round. */
  method DealKind(
    ghost rows: seq<GoldRow>, order: seq<Kind>, ghost start: map<Kind, seq<GoldRow>>, ghost before: seq<GoldRow>,
    had: map<Kind, seq<GoldRow>>, so: seq<GoldRow>, limit: int, ghost r: nat, ghost c: nat, i: nat
  ) returns (buckets: map<Kind, seq<GoldRow>>, picked: seq<GoldRow>, ghost d: nat)
    requires i < |order| && InRound(rows, order, start, before, had, so, limit, r, c, i)
    ensures InRound(rows, order, start, before, buckets, picked, limit, r, d, i + 1)
  {
    buckets, picked, d := had, so, c;
    var kind := order[i];
    if buckets[kind] != [] && |picked| < limit {
      RoundPicks(rows, order, start, before, buckets, picked, limit, r, i);
      picked := picked + [buckets[kind][0]];
      buckets := buckets[kind := buckets[kind][1..]];
      d := i + 1;
    } else if c == i && |picked| < limit {
      RoundSkips(rows, order, start, before, buckets, picked, limit, r, i);
      d := i + 1;
    } else {
      RoundFull(rows, order, start, before, buckets, picked, limit, r, c, i);
    }
  }

  lemma RoundFull(
    rows: seq<GoldRow>, order: seq<Kind>, start: map<Kind, seq<GoldRow>>, before: seq<GoldRow>,
    buckets: map<Kind, seq<GoldRow>>, picked: seq<GoldRow>, limit: int, r: nat, c: nat, i: nat
  )
    requires i < |order| && InRound(rows, order, start, before, buckets, picked, limit, r, c, i) && |picked| == limit
    ensures InRound(rows, order, start, before, buckets, picked, limit, r, c, i + 1)
  {
  }

  lemma SomePicked(
    rows: seq<GoldRow>, order: seq<Kind>, start: map<Kind, seq<GoldRow>>, before: seq<GoldRow>,
    buckets: map<Kind, seq<GoldRow>>, picked: seq<GoldRow>, limit: int, r: nat, c: nat
  )
    requires InRound(rows, order, start, before, buckets, picked, limit, r, c, |order|)
    requires exists j :: 0 <= j < |order| && !NothingIn(start, order[j])
    ensures |before| < |picked|
  {
  }

  /** One round: each kind gives one row, while the limit allows. */
  method DealRound(
    ghost rows: seq<GoldRow>, order: seq<Kind>, start: map<Kind, seq<GoldRow>>, before: seq<GoldRow>,
    limit: int, ghost r: nat
  ) returns (buckets: map<Kind, seq<GoldRow>>, picked: seq<GoldRow>)
    requires Dealing(rows, order, start, before, r, 0)
    requires |before| < limit && AnyLeft(order, start)
    ensures |before| < |picked| <= limit
    ensures |picked| < limit ==> Dealing(rows, order, buckets, picked, r + 1, 0)
    ensures AlwaysFair(rows, picked) && Holding(rows, order, buckets, picked)
  {
    buckets, picked := start, before;
    ghost var c := 0;
    for i := 0 to |order|
      invariant InRound(rows, order, start, before, buckets, picked, limit, r, c, i)
    {
      buckets, picked, c := DealKind(rows, order, start, before, buckets, picked, limit, r, c, i);
    }
    SomePicked(rows, order, start, before, buckets, picked, limit, r, c);
    if |picked| < limit {
      NextRound(rows, order, buckets, picked, r);
    }
  }

  /**
   * With a limit, the rows dealt: as many as the limit and the rows allow, each kind a prefix of
   * its own order, and at every moment no kind more than one pick behind while it has rows left.
   */
  method LoadGold(rows: seq<GoldRow>, limit: Option<int>) returns (gold: seq<GoldRow>)
    ensures limit.None? ==> gold == rows
    ensures limit.Some? ==>
              && |gold| == Min(Max(limit.value, 0), |rows|)
              && (forall kind :: OfKind(gold, kind) <= OfKind(rows, kind))
              && AlwaysFair(rows, gold)
  {
    if limit.None? {
      return rows;
    }
    var order, buckets := BucketRows(rows);
    gold := [];
    ghost var r := 0;
    Begin(rows, order, buckets);
    while |gold| < limit.value && AnyLeft(order, buckets)
      invariant Holding(rows, order, buckets, gold) && AlwaysFair(rows, gold)
      invariant |gold| <= Max(limit.value, 0)
      invariant |gold| < limit.value ==> Dealing(rows, order, buckets, gold, r, 0)
      decreases limit.value - |gold|
    {
      buckets, gold := DealRound(rows, order, buckets, gold, limit.value, r);
      r := r + 1;
    }
    PrefixesOf(rows, order, buckets, gold);
    if |gold| < limit.value {
      NothingLeft(rows, order, buckets, gold);
    }
  }
}

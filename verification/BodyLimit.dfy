/**
 * The request-body limiter (src/api/limits.py): a wrapper that counts what the application
 * reads, cuts it off past the limit, and answers 413 in its place.
 *
 * An application is whatever it does: a sequence of receives and sends, and how it ends. The
 * results hold for every such sequence, so also for an application that reacts to what it gets.
 */
module BodyLimit {
  import opened Wrappers
  import opened Decimals

  type Bytes = seq<bv8>

  /** What the server hands to a receive: a piece of body, a disconnect, or something else. */
  datatype Incoming = RequestBody(body: Bytes) | Disconnect | OtherMessage

  /** What reaches the client: the application's messages, and the limiter's own 413 pair. */
  datatype Outgoing = ResponseStart(status: int) | ResponseBody(body: Bytes) | TooLargeBody

  const REJECTION: seq<Outgoing> := [ResponseStart(413), TooLargeBody]

  /** A request with its Content-Length header, if it has one, or anything that is not HTTP. */
  datatype Scope = Http(declared: Option<string>) | OtherScope

  datatype Action = Receive(message: Incoming) | Send(reply: Outgoing)

  datatype Ending = Returns | RaisesDisconnect | RaisesOther

  /** What the caller above sees: a normal return, or the exception that unwound. */
  datatype Outcome = Completed | Unwound(ending: Ending) | InvalidLength

  // ---------------------------------------------------------------------------
  // The declared length
  // ---------------------------------------------------------------------------

  /** `str.isdigit` on a header decoded as Latin-1: the decimal digits and three superscripts. */
  predicate IsDigit(c: char) {
    IsDecimal(c) || c == '\U{B2}' || c == '\U{B3}' || c == '\U{B9}'
  }

  /** The longest decimal string Python's `int` converts by default. */
  const MAX_INT_DIGITS := 4300

  /** The check on Content-Length: refuse, let through, or fail converting what only looks numeric. */
  datatype Verdict = Refuse | Proceed | ConversionError

  function CheckDeclared(declared: Option<string>, maxBytes: nat): Verdict {
    match declared
    case None => Proceed
    case Some(s) =>
      if s == [] || exists k :: 0 <= k < |s| && !IsDigit(s[k]) then Proceed
      else if exists k :: 0 <= k < |s| && !IsDecimal(s[k]) then ConversionError
      else if |s| > MAX_INT_DIGITS then ConversionError
      else if DecimalValue(s) > maxBytes then Refuse
      else Proceed
  }

  /**
   * A declared number of bytes, written in decimal with any leading zeros and short enough to
   * convert, is refused exactly when it is more than the limit; no declaration is, ever.
   */
  lemma DeclaredTooLargeIff(zeros: nat, n: nat, maxBytes: nat)
    requires |Zeros(zeros) + Decimal(n)| <= MAX_INT_DIGITS
    ensures CheckDeclared(Some(Zeros(zeros) + Decimal(n)), maxBytes) == if n > maxBytes then Refuse else Proceed
    ensures CheckDeclared(None, maxBytes) == Proceed
  {
    ValueOfDecimal(zeros, n);
  }

  /** What does not look like a number at all is let through. */
  lemma NonNumericProceeds(s: string, k: nat, maxBytes: nat)
    requires k < |s| && !IsDecimal(s[k]) && s[k] < '\U{80}'
    ensures CheckDeclared(Some(s), maxBytes) == Proceed
  {
    assert !IsDigit(s[k]);
  }

  // ---------------------------------------------------------------------------
  // The run, by what it amounts to
  // ---------------------------------------------------------------------------

  function BodyLength(message: Incoming): nat {
    match message case RequestBody(body) => |body| case _ => 0
  }

  /** Bytes of body the application has drawn from the server so far. */
  function BytesRead(actions: seq<Action>): nat {
    if actions == [] then 0
    else
      var last := actions[|actions| - 1];
      BytesRead(actions[..|actions| - 1]) + if last.Receive? then BodyLength(last.message) else 0
  }

  function BytesHanded(delivered: seq<Incoming>): nat {
    if delivered == [] then 0
    else BytesHanded(delivered[..|delivered| - 1]) + BodyLength(delivered[|delivered| - 1])
  }

  /** What the application receives: body messages past the limit turn into disconnects. */
  function Delivered(actions: seq<Action>, maxBytes: nat): seq<Incoming> {
    if actions == [] then []
    else
      var last, earlier := actions[|actions| - 1], Delivered(actions[..|actions| - 1], maxBytes);
      if !last.Receive? then earlier
      else if last.message.RequestBody? && BytesRead(actions) > maxBytes then earlier + [Disconnect]
      else earlier + [last.message]
  }

  /** What of the application's own messages goes out: those sent before the limit was passed. */
  function Sent(actions: seq<Action>, maxBytes: nat): seq<Outgoing> {
    if actions == [] then []
    else
      var last, earlier := actions[|actions| - 1], Sent(actions[..|actions| - 1], maxBytes);
      if last.Send? && BytesRead(actions) <= maxBytes then earlier + [last.reply] else earlier
  }

  /** What the server has for the application, and what the application has for the client. */
  function Messages(actions: seq<Action>): seq<Incoming> {
    if actions == [] then []
    else
      var last := actions[|actions| - 1];
      Messages(actions[..|actions| - 1]) + if last.Receive? then [last.message] else []
  }

  function Sends(actions: seq<Action>): seq<Outgoing> {
    if actions == [] then []
    else
      var last := actions[|actions| - 1];
      Sends(actions[..|actions| - 1]) + if last.Send? then [last.reply] else []
  }

  predicate Exceeds(actions: seq<Action>, maxBytes: nat) {
    BytesRead(actions) > maxBytes
  }

  /** What a call on an HTTP request amounts to: refused or failed on the length, or served. */
  ghost predicate HttpCalled(
    declared: Option<string>, maxBytes: nat, actions: seq<Action>, ending: Ending,
    ran: bool, handed: seq<Incoming>, output: seq<Outgoing>, outcome: Outcome
  ) {
    match CheckDeclared(declared, maxBytes)
    case Refuse => !ran && handed == [] && output == REJECTION && outcome == Completed
    case ConversionError => !ran && handed == [] && output == [] && outcome == InvalidLength
    case Proceed =>
      && ran && handed == Delivered(actions, maxBytes)
      && output == Sent(actions, maxBytes)
                   + (if Exceeds(actions, maxBytes) && !ending.RaisesOther? then REJECTION else [])
      && outcome == match ending
                    case Returns => Completed
                    case RaisesDisconnect => if Exceeds(actions, maxBytes) then Completed else Unwound(ending)
                    case RaisesOther => Unwound(ending)
  }

  // ---------------------------------------------------------------------------
  // The wrapper
  // ---------------------------------------------------------------------------

  class RequestSizeLimit {
    const maxBytes: nat
    var received: nat
    var exceeded: bool
    var output: seq<Outgoing>

    constructor (maxBytes: nat)
      ensures this.maxBytes == maxBytes && received == 0 && !exceeded && output == []
    {
      this.maxBytes := maxBytes;
      received, exceeded, output := 0, false, [];
    }

    method ReceiveCounted(message: Incoming) returns (handed: Incoming)
      modifies this`received, this`exceeded
      ensures received == old(received) + BodyLength(message)
      ensures exceeded == (old(exceeded) || (message.RequestBody? && received > maxBytes))
      ensures handed == if message.RequestBody? && received > maxBytes then Disconnect else message
    {
      if message.RequestBody? {
        received := received + |message.body|;
        if received > maxBytes {
          exceeded := true;
          return Disconnect;
        }
      }
      return message;
    }

    method SendUnlessExceeded(message: Outgoing)
      modifies this`output
      ensures output == if exceeded then old(output) else old(output) + [message]
    {
      if !exceeded {
        output := output + [message];
      }
    }

    /** The application's run between the two counting channels, and what follows it. */
    method Serve(actions: seq<Action>, ending: Ending) returns (handed: seq<Incoming>, outcome: Outcome)
      requires received == 0 && !exceeded && output == []
      modifies this
      ensures handed == Delivered(actions, maxBytes)
      ensures output == Sent(actions, maxBytes)
                        + if Exceeds(actions, maxBytes) && !ending.RaisesOther? then REJECTION else []
      ensures outcome == match ending
                         case Returns => Completed
                         case RaisesDisconnect => if Exceeds(actions, maxBytes) then Completed else Unwound(ending)
                         case RaisesOther => Unwound(ending)
    {
      handed := [];
      for i := 0 to |actions|
        invariant received == BytesRead(actions[..i])
        invariant exceeded == Exceeds(actions[..i], maxBytes)
        invariant handed == Delivered(actions[..i], maxBytes)
        invariant output == Sent(actions[..i], maxBytes)
      {
        assert actions[..i + 1][..i] == actions[..i];
        match actions[i]
        case Receive(message) =>
          var got := ReceiveCounted(message);
          handed := handed + [got];
        case Send(message) =>
          SendUnlessExceeded(message);
      }
      assert actions[..|actions|] == actions;
      if ending.RaisesOther? || (ending.RaisesDisconnect? && !exceeded) {
        return handed, Unwound(ending);
      }
      if exceeded {
        output := output + REJECTION;
      }
      return handed, Completed;
    }

    /** The whole middleware. What is not HTTP goes to the application as it comes. */
    method Call(scope: Scope, actions: seq<Action>, ending: Ending)
      returns (ran: bool, handed: seq<Incoming>, outcome: Outcome)
      requires received == 0 && !exceeded && output == []
      modifies this
      ensures scope.OtherScope? ==>
                && ran && handed == Messages(actions) && output == Sends(actions)
                && outcome == if ending.Returns? then Completed else Unwound(ending)
      ensures scope.Http? ==> HttpCalled(scope.declared, maxBytes, actions, ending, ran, handed, output, outcome)
    {
      if scope.OtherScope? {
        handed, output := Messages(actions), Sends(actions);
        return true, handed, if ending.Returns? then Completed else Unwound(ending);
      }
      ran, handed, outcome := CallHttp(scope.declared, actions, ending);
    }

    method CallHttp(declared: Option<string>, actions: seq<Action>, ending: Ending)
      returns (ran: bool, handed: seq<Incoming>, outcome: Outcome)
      requires received == 0 && !exceeded && output == []
      modifies this
      ensures HttpCalled(declared, maxBytes, actions, ending, ran, handed, output, outcome)
    {
      ran, handed, outcome := false, [], Completed;
      match CheckDeclared(declared, maxBytes)
      case Refuse => output := REJECTION;
      case ConversionError => outcome := InvalidLength;
      case Proceed =>
        ran := true;
        handed, outcome := Serve(actions, ending);
    }
  }

  // ---------------------------------------------------------------------------
  // What it guarantees
  // ---------------------------------------------------------------------------

  lemma HandedOneMore(delivered: seq<Incoming>, message: Incoming)
    ensures BytesHanded(delivered + [message]) == BytesHanded(delivered) + BodyLength(message)
  {
    assert (delivered + [message])[..|delivered|] == delivered;
  }

  /** One action more, named, with the rest of the run out of sight. */
  lemma HandedStep(earlier: seq<Incoming>, read: nat, message: Incoming, maxBytes: nat)
    requires BytesHanded(earlier) <= maxBytes && (read <= maxBytes ==> BytesHanded(earlier) == read)
    ensures var total := read + BodyLength(message);
            var handed := if message.RequestBody? && total > maxBytes then Disconnect else message;
            && BytesHanded(earlier + [handed]) <= maxBytes
            && (total <= maxBytes ==> BytesHanded(earlier + [handed]) == total)
  {
    var handed := if message.RequestBody? && read + BodyLength(message) > maxBytes then Disconnect else message;
    HandedOneMore(earlier, handed);
  }

  /** Whatever it does, the application is handed at most the limit, and never loses a byte within it. */
  lemma {:induction false} HandedAtMostLimit(actions: seq<Action>, maxBytes: nat)
    ensures BytesHanded(Delivered(actions, maxBytes)) <= maxBytes
    ensures !Exceeds(actions, maxBytes) ==> BytesHanded(Delivered(actions, maxBytes)) == BytesRead(actions)
  {
    if actions != [] {
      var init, last := actions[..|actions| - 1], actions[|actions| - 1];
      HandedAtMostLimit(init, maxBytes);
      if last.Receive? {
        HandedStep(Delivered(init, maxBytes), BytesRead(init), last.message, maxBytes);
      }
    }
  }

  /** Within the limit the wrapper is invisible: every message passes, in both directions. */
  lemma {:induction false} WithinLimitUnchanged(actions: seq<Action>, maxBytes: nat)
    requires !Exceeds(actions, maxBytes)
    ensures Delivered(actions, maxBytes) == Messages(actions)
    ensures Sent(actions, maxBytes) == Sends(actions)
  {
    if actions != [] {
      WithinLimitUnchanged(actions[..|actions| - 1], maxBytes);
    }
  }

  /** The receive that first passes the limit. */
  predicate IsCut(actions: seq<Action>, maxBytes: nat, cut: nat) {
    cut < |actions| && !Exceeds(actions[..cut], maxBytes) && Exceeds(actions[..cut + 1], maxBytes)
  }

  lemma {:induction false} CutExists(actions: seq<Action>, maxBytes: nat) returns (cut: nat)
    requires Exceeds(actions, maxBytes)
    ensures IsCut(actions, maxBytes, cut)
  {
    var n := |actions| - 1;
    if Exceeds(actions[..n], maxBytes) {
      cut := CutExists(actions[..n], maxBytes);
      assert actions[..n][..cut] == actions[..cut] && actions[..n][..cut + 1] == actions[..cut + 1];
    } else {
      cut := n;
      assert actions[..n + 1] == actions;
    }
  }

  lemma {:induction false} SentStopsAtCut(actions: seq<Action>, maxBytes: nat, cut: nat)
    requires IsCut(actions, maxBytes, cut)
    ensures Exceeds(actions, maxBytes)
    ensures Sent(actions, maxBytes) == Sends(actions[..cut])
  {
    var n := |actions| - 1;
    if cut == n {
      assert actions[..n + 1] == actions;
      WithinLimitUnchanged(actions[..n], maxBytes);
    } else {
      assert actions[..n][..cut] == actions[..cut] && actions[..n][..cut + 1] == actions[..cut + 1];
      SentStopsAtCut(actions[..n], maxBytes, cut);
    }
  }

  function Starts(messages: seq<Outgoing>): nat {
    if messages == [] then 0
    else Starts(messages[..|messages| - 1]) + if messages[|messages| - 1].ResponseStart? then 1 else 0
  }

  lemma {:induction false} StartsAppend(left: seq<Outgoing>, right: seq<Outgoing>)
    ensures Starts(left + right) == Starts(left) + Starts(right)
  {
    if right == [] {
      assert left + right == left;
    } else {
      var n := |right| - 1;
      assert (left + right)[..|left| + n] == left + right[..n];
      StartsAppend(left, right[..n]);
    }
  }

  /**
   * Past the limit the client gets what was sent before the cut, then one 413 pair. That is one
   * response, as the protocol wants, exactly when the application had not started its own.
   */
  lemma RejectionIsTheOnlyResponseIff(actions: seq<Action>, maxBytes: nat, cut: nat)
    requires IsCut(actions, maxBytes, cut)
    ensures var output := Sent(actions, maxBytes) + REJECTION;
            && output == Sends(actions[..cut]) + REJECTION
            && (Starts(output) == 1 <==> Starts(Sends(actions[..cut])) == 0)
  {
    SentStopsAtCut(actions, maxBytes, cut);
    StartsAppend(Sends(actions[..cut]), REJECTION);
    assert REJECTION[..1] == [ResponseStart(413)] && [ResponseStart(413)][..0] == [];
    assert Starts(REJECTION) == Starts(REJECTION[..1]) == 1;
  }

  // ---------------------------------------------------------------------------
  // Two inputs
  // ---------------------------------------------------------------------------

  /** Starts its response, then reads two bytes of body under a limit of one. */
  const EAGER: seq<Action> := [Send(ResponseStart(200)), Receive(RequestBody([0, 0]))]

  lemma EagerIsCut()
    ensures IsCut(EAGER, 1, 1) && Sends(EAGER[..1]) == [ResponseStart(200)]
  {
    assert EAGER[..1][..0] == [] && EAGER[..2] == EAGER;
    assert Sends(EAGER[..1]) == Sends([]) + [ResponseStart(200)];
    assert BytesRead(EAGER[..1]) == BytesRead([]) + 0 == 0;
    assert BytesRead(EAGER) == BytesRead(EAGER[..1]) + 2;
  }

  /** The client of such an application sees two responses start. */
  lemma TwoResponsesStart()
    ensures Sent(EAGER, 1) + REJECTION == [ResponseStart(200), ResponseStart(413), TooLargeBody]
    ensures Starts(Sent(EAGER, 1) + REJECTION) == 2
  {
    EagerIsCut();
    SentStopsAtCut(EAGER, 1, 1);
    StartsAppend([ResponseStart(200)], REJECTION);
    assert REJECTION[..1] == [ResponseStart(413)] && [ResponseStart(413)][..0] == [ResponseStart(200)][..0] == [];
    assert Starts(REJECTION) == Starts(REJECTION[..1]) == 1;
  }

  /** A superscript two passes for a digit and is not a number. */
  lemma SuperscriptFails(maxBytes: nat)
    ensures CheckDeclared(Some("\U{B2}"), maxBytes) == ConversionError
  {
    var s := "\U{B2}";
    assert IsDigit(s[0]) && !IsDecimal(s[0]);
  }
}

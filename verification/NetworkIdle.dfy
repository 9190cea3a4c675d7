/** The observer of the in-flight counter: `Tab::wait_for_condition_with`. */
module NetworkIdle {
  import FetchBridge

  datatype WaitCondition = Visible | NetworkIdle | DomContentLoaded | Load

  /** One turn of the wait loop: what it saw, when it looked, and when it compared with the deadline. */
  datatype Sample = Sample(satisfied: bool, seenAt: nat, comparedAt: nat)

  datatype WaitOptions = WaitOptions(pollIntervalMs: nat, quietWindowMs: nat)

  datatype Outcome = Ready | TimedOut

  function Poll(options: WaitOptions): nat {
    if options.pollIntervalMs < 1 then 1 else options.pollIntervalMs
  }

  function Deadline(start: nat, timeoutMs: nat): nat { start + timeoutMs }

  /** A monotone clock, and a sleep of at least one poll interval between turns. */
  ghost predicate Clocked(samples: nat -> Sample, start: nat, poll: nat) {
    && start <= samples(0).seenAt
    && (forall i: nat :: samples(i).seenAt <= samples(i).comparedAt)
    && (forall i: nat, j: nat | j == i + 1 :: samples(i).comparedAt + poll <= samples(j).seenAt)
  }

  /** The samples `from..=to` all saw the counter at zero. */
  ghost predicate AllQuiet(samples: nat -> Sample, from: nat, to: nat) {
    forall k: nat | from <= k <= to :: samples(k).satisfied
  }

  /** The condition is met at turn `i`. For the network it takes an earlier turn, nothing but zeros since,
      and a span of at least the quiet window. */
  ghost predicate MetAt(cond: WaitCondition, samples: nat -> Sample, quiet: nat, i: nat) {
    if cond.NetworkIdle? then
      exists from: nat :: from < i && AllQuiet(samples, from, i)
        && samples(i).seenAt - samples(from).seenAt >= quiet
    else samples(i).satisfied
  }

  /** Turn `i` ends the wait with this outcome; being ready wins over the deadline. */
  ghost predicate EndsAt(cond: WaitCondition, samples: nat -> Sample, quiet: nat, deadline: nat, i: nat, o: Outcome) {
    match o
    case Ready => MetAt(cond, samples, quiet, i)
    case TimedOut => !MetAt(cond, samples, quiet, i) && samples(i).comparedAt >= deadline
  }

  ghost predicate GoesOn(cond: WaitCondition, samples: nat -> Sample, quiet: nat, deadline: nat, i: nat) {
    !MetAt(cond, samples, quiet, i) && samples(i).comparedAt < deadline
  }

  lemma {:induction false} LaterSeen(samples: nat -> Sample, start: nat, poll: nat, i: nat, j: nat)
    requires Clocked(samples, start, poll) && i <= j
    ensures samples(i).seenAt <= samples(j).seenAt
    ensures i < j ==> samples(i).comparedAt + poll <= samples(j).seenAt
    decreases j
  {
    if i < j {
      LaterSeen(samples, start, poll, i, j - 1);
      assert samples(j - 1).comparedAt + poll <= samples(j - 1 + 1).seenAt;
    }
  }

  /** The first sample of a run of zeros decides for the whole run. */
  lemma RunStartDecides(samples: nat -> Sample, start: nat, poll: nat, quiet: nat, first: nat, i: nat)
    requires Clocked(samples, start, poll)
    requires first <= i && AllQuiet(samples, first, i) && (first > 0 ==> !samples(first - 1).satisfied)
    ensures MetAt(NetworkIdle, samples, quiet, i)
       <==> first < i && samples(i).seenAt - samples(first).seenAt >= quiet
  {
    forall f: nat | f < first ensures !AllQuiet(samples, f, i) {
      assert !samples(first - 1).satisfied;
    }
    if from: nat :| from < i && AllQuiet(samples, from, i) && samples(i).seenAt - samples(from).seenAt >= quiet {
      LaterSeen(samples, start, poll, first, from);
    }
  }

  /** What readiness means: the condition is seen; for the network, zero seen at two turns a quiet window apart or more
      and at every turn between. */
  ghost predicate ConditionMet(cond: WaitCondition, samples: nat -> Sample, quiet: nat, i: nat) {
    if cond == NetworkIdle then
      exists from: nat :: from < i && samples(from).seenAt + quiet <= samples(i).seenAt
                          && forall k: nat | from <= k <= i :: samples(k).satisfied
    else samples(i).satisfied
  }

  lemma MetIff(cond: WaitCondition, samples: nat -> Sample, quiet: nat, i: nat)
    ensures ConditionMet(cond, samples, quiet, i) <==> MetAt(cond, samples, quiet, i)
  {
    if from: nat :| from < i && AllQuiet(samples, from, i) && samples(i).seenAt - samples(from).seenAt >= quiet {
      assert forall k: nat | from <= k <= i :: samples(k).satisfied;
    }
    if from: nat :| from < i && samples(from).seenAt + quiet <= samples(i).seenAt
                    && forall k: nat | from <= k <= i :: samples(k).satisfied {
      assert AllQuiet(samples, from, i);
    }
  }

  /** The turn is the first that is ready or past the deadline, and the outcome says which; being ready wins. */
  ghost predicate FirstToEnd(cond: WaitCondition, samples: nat -> Sample, quiet: nat, deadline: nat, turn: nat,
                             outcome: Outcome) {
    && (outcome == Ready <==> ConditionMet(cond, samples, quiet, turn))
    && (outcome == TimedOut ==> samples(turn).comparedAt >= deadline)
    && forall j: nat | j < turn :: !ConditionMet(cond, samples, quiet, j) && samples(j).comparedAt < deadline
  }

  lemma EndedFirst(cond: WaitCondition, samples: nat -> Sample, quiet: nat, deadline: nat, turn: nat, outcome: Outcome)
    requires EndsAt(cond, samples, quiet, deadline, turn, outcome)
    requires forall j: nat | j < turn :: GoesOn(cond, samples, quiet, deadline, j)
    ensures FirstToEnd(cond, samples, quiet, deadline, turn, outcome)
  {
    MetIff(cond, samples, quiet, turn);
    forall j: nat | j < turn ensures !ConditionMet(cond, samples, quiet, j) && samples(j).comparedAt < deadline {
      MetIff(cond, samples, quiet, j);
      assert GoesOn(cond, samples, quiet, deadline, j);
    }
  }

  /** The idle clock before turn `turn`: running since the first zero of the streak that reaches up to that turn, or
      not running because there is none. */
  ghost predicate IdleClock(cond: WaitCondition, samples: nat -> Sample, idleSince: int, first: nat, turn: nat) {
    if idleSince < 0 then cond.NetworkIdle? && turn > 0 ==> !samples(turn - 1).satisfied
    else
      && cond.NetworkIdle? && first < turn && AllQuiet(samples, first, turn - 1)
      && idleSince == samples(first).seenAt && (first > 0 ==> !samples(first - 1).satisfied)
  }

  lemma NotYetMet(samples: nat -> Sample, start: nat, poll: nat, quiet: nat, turn: nat)
    requires Clocked(samples, start, poll)
    requires samples(turn).satisfied ==> turn > 0 ==> !samples(turn - 1).satisfied
    ensures !MetAt(NetworkIdle, samples, quiet, turn)
  {
    if samples(turn).satisfied {
      RunStartDecides(samples, start, poll, quiet, turn, turn);
    }
  }

  /** The wait loop ends at the first turn that is ready or past the deadline, with the outcome of that turn,
      for every sequence of samples; it always ends. */
  method WaitForCondition(cond: WaitCondition, timeoutMs: nat, options: WaitOptions,
                          start: nat, samples: nat -> Sample)
      returns (outcome: Outcome, turn: nat)
    requires Clocked(samples, start, if options.pollIntervalMs > 1 then options.pollIntervalMs else 1)
    ensures FirstToEnd(cond, samples, options.quietWindowMs, start + timeoutMs, turn, outcome)
    ensures EndsAt(cond, samples, options.quietWindowMs, Deadline(start, timeoutMs), turn, outcome)
    ensures forall j: nat | j < turn :: GoesOn(cond, samples, options.quietWindowMs, Deadline(start, timeoutMs), j)
  {
    var poll := Poll(options);
    var quiet := options.quietWindowMs;
    var deadline := Deadline(start, timeoutMs);
    var idleSince: int := -1;   // no idle streak yet
    ghost var first: nat := 0;  // the turn that opened the streak
    turn := 0;
    while true
      invariant IdleClock(cond, samples, idleSince, first, turn)
      invariant forall j: nat | j < turn :: GoesOn(cond, samples, quiet, deadline, j)
      decreases deadline - samples(turn).seenAt
    {
      var now := samples(turn);
      if now.satisfied {
        if cond.NetworkIdle? {
          if idleSince < 0 {
            idleSince, first := now.seenAt, turn;
            NotYetMet(samples, start, poll, quiet, turn);
          } else {
            RunStartDecides(samples, start, poll, quiet, first, turn);
            if now.seenAt - idleSince >= quiet {
              EndedFirst(cond, samples, quiet, deadline, turn, Ready);
              return Ready, turn;
            }
          }
        } else {
          EndedFirst(cond, samples, quiet, deadline, turn, Ready);
          return Ready, turn;
        }
      } else if cond.NetworkIdle? {
        idleSince := -1;
        NotYetMet(samples, start, poll, quiet, turn);
      }
      if now.comparedAt >= deadline {
        EndedFirst(cond, samples, quiet, deadline, turn, TimedOut);
        return TimedOut, turn;
      }
      assert samples(turn).comparedAt + poll <= samples(turn + 1).seenAt;
      turn := turn + 1;
    }
  }

  /** The wait takes at most one turn per poll interval. */
  lemma {:induction false} TurnsAreBounded(cond: WaitCondition, samples: nat -> Sample, start: nat, poll: nat,
                                           quiet: nat, timeoutMs: nat, turn: nat)
    requires Clocked(samples, start, poll)
    requires forall j: nat | j < turn :: GoesOn(cond, samples, quiet, Deadline(start, timeoutMs), j)
    ensures start + turn * poll <= samples(turn).seenAt
    ensures turn > 0 ==> (turn - 1) * poll < timeoutMs
  {
    if turn > 0 {
      TurnsAreBounded(cond, samples, start, poll, quiet, timeoutMs, turn - 1);
      assert GoesOn(cond, samples, quiet, Deadline(start, timeoutMs), turn - 1);
      assert samples(turn - 1).comparedAt + poll <= samples(turn - 1 + 1).seenAt;
      assert turn * poll == (turn - 1) * poll + poll;
    }
  }

  /** The specification leaves no freedom: the ending turn and the outcome are determined. */
  lemma WaitIsDetermined(cond: WaitCondition, samples: nat -> Sample, quiet: nat, deadline: nat,
                         i: nat, o: Outcome, j: nat, p: Outcome)
    requires EndsAt(cond, samples, quiet, deadline, i, o)
    requires forall k: nat | k < i :: GoesOn(cond, samples, quiet, deadline, k)
    requires EndsAt(cond, samples, quiet, deadline, j, p)
    requires forall k: nat | k < j :: GoesOn(cond, samples, quiet, deadline, k)
    ensures i == j && o == p
  {
    assert !GoesOn(cond, samples, quiet, deadline, i);
    assert !GoesOn(cond, samples, quiet, deadline, j);
  }

  /** Samples the bridge counter along a run, at the states `at(0) <= at(1) <= ...`, for the first `n` turns. */
  ghost predicate Observes(samples: nat -> Sample, trace: seq<FetchBridge.State>, at: nat -> nat, n: nat) {
    && (forall i: nat, j: nat | i <= j <= n :: at(i) <= at(j) < |trace|)
    && (forall i: nat | i <= n :: samples(i).satisfied <==> trace[at(i)].counter == 0)
  }

  /** Once a stylesheet has been fetched before the wait began, waiting for the network can only time out. */
  lemma StylesheetsDefeatNetworkIdle(samples: nat -> Sample, trace: seq<FetchBridge.State>, at: nat -> nat,
                                     quiet: nat, deadline: nat, turn: nat, outcome: Outcome)
    requires FetchBridge.IsRun(trace) && Observes(samples, trace, at, turn)
    requires at(0) < |trace| && trace[at(0)].leaked > 0
    requires EndsAt(NetworkIdle, samples, quiet, deadline, turn, outcome)
    ensures outcome == TimedOut
  {
    FetchBridge.StylesheetsHoldTheCounterUp(trace, at(0), at(turn));
    assert !samples(turn).satisfied;
  }

  /** Nothing in flight: no session request is open, and each request the bridge received has been answered,
      except one that it has received but not counted yet. */
  predicate NothingInFlight(s: FetchBridge.State) {
    && s.guards == 0
    && |s.responses| == |s.dequeued| - (if s.dispatching.Some? then 1 else 0)
  }

  /** A ready network wait means: over at least the quiet window, up to the turn that returned, every observed
      state had nothing in flight; and the counter also stayed at zero between the observations if and only if no
      step in between counted a request, a guard or a stylesheet. */
  lemma ReadyMeansAnswered(samples: nat -> Sample, trace: seq<FetchBridge.State>, at: nat -> nat,
                           quiet: nat, turn: nat) returns (from: nat)
    requires FetchBridge.IsRun(trace) && Observes(samples, trace, at, turn)
    requires MetAt(NetworkIdle, samples, quiet, turn)
    ensures from < turn && samples(turn).seenAt - samples(from).seenAt >= quiet
    ensures forall k: nat | from <= k <= turn :: at(k) < |trace| && NothingInFlight(trace[at(k)])
    ensures FetchBridge.ZeroThroughout(trace, at(from), at(turn))
       <==> FetchBridge.NoneCounted(trace, at(from), at(turn))
  {
    from :| from < turn && AllQuiet(samples, from, turn)
      && samples(turn).seenAt - samples(from).seenAt >= quiet;
    forall k: nat | from <= k <= turn
      ensures at(k) < |trace| && NothingInFlight(trace[at(k)])
    {
      assert samples(k).satisfied;
      FetchBridge.ZeroMeansAnswered(trace, at(k));
      FetchBridge.ZeroCounter(trace, at(k));
    }
    assert samples(from).satisfied;
    FetchBridge.StaysZeroIff(trace, at(from), at(turn));
  }

  /** Every poll sees zero, fifty milliseconds apart. */
  function AllZero(): nat -> Sample { (i: nat) => Sample(true, 50 * i, 50 * i) }

  lemma ReadyAtTen(deadline: nat)
    requires deadline > 500
    ensures Clocked(AllZero(), 0, 50)
    ensures EndsAt(NetworkIdle, AllZero(), 500, deadline, 10, Ready)
    ensures forall j: nat | j < 10 :: GoesOn(NetworkIdle, AllZero(), 500, deadline, j)
  {
    assert AllQuiet(AllZero(), 0, 10);
    forall j: nat | j < 10 ensures GoesOn(NetworkIdle, AllZero(), 500, deadline, j) {
      assert forall from: nat | from < j :: AllZero()(j).seenAt - AllZero()(from).seenAt < 500;
    }
  }

  /** What the polls miss: with the default interval and window a wait is ready although, between its first two
      polls, a request was received, counted, answered and un-counted. */
  lemma UnseenRequest(deadline: nat) returns (trace: seq<FetchBridge.State>, at: nat -> nat)
    requires deadline > 500
    ensures FetchBridge.IsRun(trace) && Observes(AllZero(), trace, at, 10)
    ensures Clocked(AllZero(), 0, 50) && EndsAt(NetworkIdle, AllZero(), 500, deadline, 10, Ready)
    ensures forall j: nat | j < 10 :: GoesOn(NetworkIdle, AllZero(), 500, deadline, j)
    ensures at(0) < 3 < at(1) < |trace| && trace[3].counter == 1
    ensures trace[at(0)].responses == [] && |trace[at(1)].responses| == 1
  {
    trace := FetchBridge.OneRequest();
    at := (i: nat) => if i == 0 then 0 else 7;
    ReadyAtTen(deadline);
  }
}

/** The fetch bridge as interleaved steps: JS requests are dequeued, counted, run as one task each,
    possibly paused for the interception client, logged, answered and un-counted, while the session
    thread opens and drops in-flight guards on the same counter. */
module FetchBridge {
  import opened Text
  import opened RequestLog

  /** Why a request was answered the way it was: one constructor per terminal branch. */
  datatype Cause =
    | Offline
    | InvalidUrl
    | ClientFailed
    | ClientFulfilled(code: nat)
    | Delivered(code: nat, headers: Headers, mimeType: string, bodyLength: nat)
    | BodyUnreadable(code: nat, headers: Headers)
    | TransportFailed

  /** The answer routed back to the JS thread by request id. */
  datatype Response = Response(id: nat, cause: Cause) {
    function Status(): nat {
      match cause
      case Offline | ClientFailed | TransportFailed => 0
      case InvalidUrl => 400
      case ClientFulfilled(code) => code
      case Delivered(code, _, _, _) => code
      case BodyUnreadable(code, _) => code
    }
  }

  /** What the terminal branch writes into the request log. */
  function Logged(cause: Cause, at: nat): Completion {
    match cause
    case Offline | TransportFailed => Completion(None, [], "", None, at)
    case InvalidUrl => Completion(Some(400), [], "", None, at)
    case ClientFailed => Completion(Some(0), [], "", None, at)
    case ClientFulfilled(code) => Completion(Some(code), [], "", None, at)
    case BodyUnreadable(code, _) => Completion(Some(code), [], "", None, at)
    case Delivered(code, headers, mime, length) => Completion(Some(code), headers, mime, Some(length), at)
  }

  /** Where one spawned task stands. `Spawned`, `Paused` and `Fetching` are its await points. */
  datatype Phase =
    | Spawned
    | Checking
    | Paused
    | Fetching
    | Recorded(cause: Cause)   // log record finished, answer not sent yet
    | Sent(cause: Cause)       // answer sent, counter not decremented yet
    | Done(cause: Cause)
    | Abandoned                // dropped with the runtime when the JS side went away

  predicate AtAwait(p: Phase) { p.Spawned? || p.Paused? || p.Fetching? || p.Done? }
  predicate Answered(p: Phase) { p.Sent? || p.Done? }
  predicate Started(p: Phase) { !p.Spawned? && !p.Abandoned? }
  predicate LogFinished(p: Phase) { p.Recorded? || p.Sent? || p.Done? }

  datatype State = State(
    connected: bool,             // the JS side still holds its sender
    minted: nat,                 // requests issued by the JS thread so far
    queue: seq<nat>,             // JS -> bridge channel
    dequeued: seq<nat>,          // ids received by the bridge, in order
    dispatching: Option<nat>,    // received, counter not incremented yet
    tasks: map<nat, Phase>,
    counter: int,                // the shared in-flight counter
    guards: nat,                 // live `InFlightGuard`s
    leaked: nat,                 // hand-made increments of the stylesheet loader
    responses: seq<Response>,
    logOps: seq<Op>,             // everything done to the log
    log: seq<RequestRecord>)

  const INIT := State(true, 0, [], [], None, map[], 0, 0, 0, [], [], [])

  datatype Verdict = Continue | NoDecision | Fail | Fulfill(code: nat)

  datatype Step =
    | Issue
    | Dequeue
    | Spawn
    | StartTask(id: nat, record: RequestRecord)
    | RejectOffline(id: nat, at: nat)
    | RejectUrl(id: nat, at: nat)
    | Pause(id: nat)
    | PassThrough(id: nat)
    | Decide(id: nat, verdict: Verdict, at: nat)
    | NetworkResult(id: nat, cause: Cause, at: nat)
    | SendAnswer(id: nat)
    | Decrement(id: nat)
    | GuardNew
    | GuardDrop
    | StylesheetIncrement
    | SessionLogs(op: Op)
    | Disconnect

  /** The single-threaded runtime is free to poll its loop or any one task. */
  predicate Idle(s: State) {
    s.connected && s.dispatching.None? && forall id | id in s.tasks :: AtAwait(s.tasks[id])
  }

  predicate SessionOp(op: Op) {
    match op
    case Start(r) => !r.requestId.Oxi?
    case Finish(id, _) => !id.Oxi?
    case Clear => true
  }

  predicate Enabled(s: State, step: Step) {
    match step
    case Issue => s.connected
    case Dequeue => Idle(s) && s.queue != []
    case Spawn => s.dispatching.Some?
    case StartTask(id, r) => Idle(s) && id in s.tasks && s.tasks[id].Spawned?
                             && r.requestId == Oxi(id) && r.finishedAt.None? && r.status.None?
    case RejectOffline(id, _) => id in s.tasks && s.tasks[id].Checking?
    case RejectUrl(id, _) => id in s.tasks && s.tasks[id].Checking?
    case Pause(id) => id in s.tasks && s.tasks[id].Checking?
    case PassThrough(id) => id in s.tasks && s.tasks[id].Checking?
    case Decide(id, _, _) => Idle(s) && id in s.tasks && s.tasks[id].Paused?
    case NetworkResult(id, c, _) => Idle(s) && id in s.tasks && s.tasks[id].Fetching?
                                    && (c.Delivered? || c.BodyUnreadable? || c.TransportFailed?)
    case SendAnswer(id) => id in s.tasks && s.tasks[id].Recorded?
    case Decrement(id) => id in s.tasks && s.tasks[id].Sent?
    case GuardNew => true
    case GuardDrop => s.guards > 0
    case StylesheetIncrement => true
    case SessionLogs(op) => SessionOp(op)
    case Disconnect => Idle(s) && s.queue == []
  }

  function Move(s: State, id: nat, p: Phase): State { s.(tasks := s.tasks[id := p]) }

  function WriteLog(s: State, op: Op): State {
    s.(logOps := s.logOps + [op], log := Capped(s.log, op))
  }

  /** Finish the log record, leaving the answer to be sent. */
  function Conclude(s: State, id: nat, cause: Cause, at: nat): State {
    WriteLog(Move(s, id, Recorded(cause)), Finish(Oxi(id), Logged(cause, at)))
  }

  function Apply(s: State, step: Step): State
    requires Enabled(s, step)
  {
    match step
    case Issue => s.(minted := s.minted + 1, queue := s.queue + [s.minted + 1])
    case Dequeue => s.(queue := s.queue[1..], dequeued := s.dequeued + [s.queue[0]],
                       dispatching := Some(s.queue[0]))
    case Spawn => s.(counter := s.counter + 1, dispatching := None,
                     tasks := s.tasks[s.dispatching.value := Spawned])
    case StartTask(id, r) => WriteLog(Move(s, id, Checking), Start(r))
    case RejectOffline(id, at) => Conclude(s, id, Offline, at)
    case RejectUrl(id, at) => Conclude(s, id, InvalidUrl, at)
    case Pause(id) => Move(s, id, Paused)
    case PassThrough(id) => Move(s, id, Fetching)
    case Decide(id, verdict, at) => (
      match verdict
      case Continue => Move(s, id, Fetching)
      case NoDecision => Move(s, id, Fetching)
      case Fail => Conclude(s, id, ClientFailed, at)
      case Fulfill(code) => Conclude(s, id, ClientFulfilled(code), at))
    case NetworkResult(id, cause, at) => Conclude(s, id, cause, at)
    case SendAnswer(id) => Move(s, id, Sent(s.tasks[id].cause)).(
                           responses := s.responses + [Response(id, s.tasks[id].cause)])
    case Decrement(id) => Move(s, id, Done(s.tasks[id].cause)).(counter := s.counter - 1)
    case GuardNew => s.(counter := s.counter + 1, guards := s.guards + 1)
    case GuardDrop => s.(counter := s.counter - 1, guards := s.guards - 1)
    case StylesheetIncrement => s.(counter := s.counter + 1, leaked := s.leaked + 1)
    case SessionLogs(op) => WriteLog(s, op)
    case Disconnect => s.(connected := false,
                          tasks := map id | id in s.tasks :: if s.tasks[id].Done? then s.tasks[id] else Abandoned)
  }

  ghost predicate Next(s: State, s': State) {
    exists step :: Enabled(s, step) && s' == Apply(s, step)
  }

  ghost predicate IsRun(trace: seq<State>) {
    |trace| > 0 && trace[0] == INIT && forall i | 0 <= i < |trace| - 1 :: Next(trace[i], trace[i + 1])
  }

  // ---------- what every step keeps ----------

  /** Tasks still holding the counter up. */
  function Uncounted(tasks: map<nat, Phase>): set<nat> { set id | id in tasks && !tasks[id].Done? }

  /** Tasks whose answer was sent. */
  function AnsweredIds(tasks: map<nat, Phase>): set<nat> { set id | id in tasks && Answered(tasks[id]) }

  /** Requests received and not answered: the one being dispatched and every unanswered task. */
  function Owing(s: State): set<nat> {
    (set id | id in s.tasks && !Answered(s.tasks[id])) +
    (if s.dispatching.Some? then {s.dispatching.value} else {})
  }

  ghost predicate QueueInv(s: State) {
    && s.minted == |s.dequeued| + |s.queue|
    && (forall i | 0 <= i < |s.dequeued| :: s.dequeued[i] == i + 1)
    && (forall i | 0 <= i < |s.queue| :: s.queue[i] == |s.dequeued| + i + 1)
    && (s.dispatching.Some? ==> s.connected && s.dequeued != [] && s.dispatching.value == |s.dequeued|)
    && (forall id :: id in s.tasks <==> 1 <= id <= |s.dequeued| && s.dispatching != Some(id))
    && (forall id | id in s.tasks :: s.tasks[id].Abandoned? ==> !s.connected)
    && (!s.connected ==> s.queue == [] && forall id | id in s.tasks :: s.tasks[id].Done? || s.tasks[id].Abandoned?)
  }

  ghost predicate CounterInv(s: State) {
    s.counter == |Uncounted(s.tasks)| + s.guards + s.leaked
  }

  ghost predicate AnswersMatch(tasks: map<nat, Phase>, responses: seq<Response>) {
    && |responses| == |AnsweredIds(tasks)|
    && (forall i, j | 0 <= i < j < |responses| :: responses[i].id != responses[j].id)
    && (forall r | r in responses ::
          r.id in tasks && Answered(tasks[r.id]) && tasks[r.id].cause == r.cause)
    && (forall id | id in tasks && Answered(tasks[id]) :: Response(id, tasks[id].cause) in responses)
  }

  /** The record of a bridge request says exactly how far its task got. */
  ghost predicate RecordAgrees(tasks: map<nat, Phase>, r: RequestRecord) {
    r.requestId.Oxi? ==>
      var id := r.requestId.n;
      && id in tasks && !tasks[id].Spawned?
      && (r.finishedAt.Some? <==> LogFinished(tasks[id]))
      && (LogFinished(tasks[id]) ==> exists at :: r == Completed(r, Logged(tasks[id].cause, at)))
  }

  /** No bridge request is logged twice. */
  ghost predicate LoggedOnce(log: seq<RequestRecord>) {
    forall i, j | 0 <= i < j < |log| && log[i].requestId.Oxi? :: log[i].requestId != log[j].requestId
  }

  ghost predicate LogsMatch(tasks: map<nat, Phase>, log: seq<RequestRecord>) {
    LoggedOnce(log) && forall r | r in log :: RecordAgrees(tasks, r)
  }

  ghost predicate AllLogged(tasks: map<nat, Phase>, log: seq<RequestRecord>) {
    forall id | id in tasks && Started(tasks[id]) :: exists i :: 0 <= i < |log| && log[i].requestId == Oxi(id)
  }

  ghost predicate LogInv(s: State) {
    && s.log == RunCapped(s.logOps)
    && LogsMatch(s.tasks, RunUncapped(s.logOps))
    && (Clear !in s.logOps ==> AllLogged(s.tasks, RunUncapped(s.logOps)))
  }

  ghost predicate Inv(s: State) {
    QueueInv(s) && CounterInv(s) && AnswersMatch(s.tasks, s.responses) && LogInv(s)
  }

  /** The task a step polls, if it polls one. */
  function TaskOf(step: Step): Option<nat> {
    match step
    case StartTask(id, _) => Some(id)
    case RejectOffline(id, _) => Some(id)
    case RejectUrl(id, _) => Some(id)
    case Pause(id) => Some(id)
    case PassThrough(id) => Some(id)
    case Decide(id, _, _) => Some(id)
    case NetworkResult(id, _, _) => Some(id)
    case SendAnswer(id) => Some(id)
    case Decrement(id) => Some(id)
    case _ => None
  }

  lemma QueueKeptByTask(s: State, step: Step)
    requires Enabled(s, step) && QueueInv(s) && TaskOf(step).Some?
    ensures QueueInv(Apply(s, step))
  {
    var id := TaskOf(step).value;
    assert Apply(s, step).tasks == s.tasks[id := Apply(s, step).tasks[id]];
  }

  lemma QueueKeptByDisconnect(s: State)
    requires Enabled(s, Disconnect) && QueueInv(s)
    ensures QueueInv(Apply(s, Disconnect))
  {
  }

  lemma QueueKept(s: State, step: Step)
    requires Enabled(s, step) && QueueInv(s)
    ensures QueueInv(Apply(s, step))
  {
    if TaskOf(step).Some? {
      QueueKeptByTask(s, step);
    } else if step.Disconnect? {
      QueueKeptByDisconnect(s);
    }
  }

  /** Moving one task into or out of the un-counted ones moves the cardinality by one. */
  lemma UncountedMoved(tasks: map<nat, Phase>, id: nat, p: Phase)
    ensures var after := Uncounted(tasks[id := p]);
            |after| == |Uncounted(tasks)|
              + (if p.Done? then 0 else 1)
              - (if id in tasks && !tasks[id].Done? then 1 else 0)
  {
    var before := Uncounted(tasks);
    assert id in before <==> id in tasks && !tasks[id].Done?;
    assert Uncounted(tasks[id := p]) == if p.Done? then before - {id} else before + {id};
  }

  lemma NothingUncounted(tasks: map<nat, Phase>)
    requires |Uncounted(tasks)| == 0
    ensures forall id | id in tasks :: tasks[id].Done?
  {
    assert Uncounted(tasks) == {};
    forall id | id in tasks ensures tasks[id].Done? {
      assert id !in Uncounted(tasks);
    }
  }

  lemma CounterKept(s: State, step: Step)
    requires Enabled(s, step) && QueueInv(s) && CounterInv(s)
    ensures CounterInv(Apply(s, step))
  {
    var s' := Apply(s, step);
    if step.Spawn? {
      UncountedMoved(s.tasks, s.dispatching.value, Spawned);
    } else if step.Disconnect? {
      assert Uncounted(s'.tasks) == Uncounted(s.tasks);
    } else if TaskOf(step).Some? {
      var id := TaskOf(step).value;
      assert s'.tasks == s.tasks[id := s'.tasks[id]];
      UncountedMoved(s.tasks, id, s'.tasks[id]);
    }
  }

  /** The other steps leave the answered tasks, and their causes, as they are. */
  ghost predicate SameAnswers(tasks: map<nat, Phase>, tasks': map<nat, Phase>) {
    forall id :: (id in tasks && Answered(tasks[id])) <==> (id in tasks' && Answered(tasks'[id]))
  }

  lemma AnswersFramed(tasks: map<nat, Phase>, tasks': map<nat, Phase>, responses: seq<Response>)
    requires AnswersMatch(tasks, responses) && SameAnswers(tasks, tasks')
    requires forall id | id in tasks && Answered(tasks[id]) :: tasks'[id].cause == tasks[id].cause
    ensures AnswersMatch(tasks', responses)
  {
    assert AnsweredIds(tasks') == AnsweredIds(tasks);
  }

  lemma AnswerSent(tasks: map<nat, Phase>, responses: seq<Response>, id: nat)
    requires AnswersMatch(tasks, responses) && id in tasks && tasks[id].Recorded?
    ensures AnswersMatch(tasks[id := Sent(tasks[id].cause)], responses + [Response(id, tasks[id].cause)])
  {
    var tasks' := tasks[id := Sent(tasks[id].cause)];
    assert id !in AnsweredIds(tasks) && AnsweredIds(tasks') == AnsweredIds(tasks) + {id};
  }

  lemma AnswersMoved(tasks: map<nat, Phase>, id: nat, p: Phase, responses: seq<Response>)
    requires AnswersMatch(tasks, responses)
    requires if id in tasks && Answered(tasks[id]) then Answered(p) && p.cause == tasks[id].cause else !Answered(p)
    ensures AnswersMatch(tasks[id := p], responses)
  {
    AnswersFramed(tasks, tasks[id := p], responses);
  }

  lemma AnswerKeptByTask(s: State, step: Step)
    requires Enabled(s, step) && TaskOf(step).Some? && !step.SendAnswer? && AnswersMatch(s.tasks, s.responses)
    ensures var s' := Apply(s, step); AnswersMatch(s'.tasks, s'.responses)
  {
    var s', id := Apply(s, step), TaskOf(step).value;
    assert s'.tasks == s.tasks[id := s'.tasks[id]];
    AnswersMoved(s.tasks, id, s'.tasks[id], s.responses);
  }

  lemma AnswerKept(s: State, step: Step)
    requires Enabled(s, step) && QueueInv(s) && AnswersMatch(s.tasks, s.responses)
    ensures var s' := Apply(s, step); AnswersMatch(s'.tasks, s'.responses)
  {
    var s' := Apply(s, step);
    if step.SendAnswer? {
      AnswerSent(s.tasks, s.responses, step.id);
    } else if step.Disconnect? {
      AnswersFramed(s.tasks, s'.tasks, s.responses);
    } else if step.Spawn? {
      AnswersMoved(s.tasks, s.dispatching.value, Spawned, s.responses);
    } else if TaskOf(step).Some? {
      AnswerKeptByTask(s, step);
    }
  }

  lemma LogAppended(ops: seq<Op>, op: Op)
    ensures RunUncapped(ops + [op]) == Uncapped(RunUncapped(ops), op)
    ensures RunCapped(ops + [op]) == Capped(RunCapped(ops), op)
  {
    assert (ops + [op])[..|ops|] == ops;
  }

  /** A task moves without touching the log. */
  lemma LogFramed(tasks: map<nat, Phase>, tasks': map<nat, Phase>, log: seq<RequestRecord>)
    requires LogsMatch(tasks, log)
    requires forall id | id in tasks && !tasks[id].Spawned? ::
      && id in tasks' && !tasks'[id].Spawned?
      && LogFinished(tasks'[id]) == LogFinished(tasks[id])
      && (LogFinished(tasks[id]) ==> tasks'[id].cause == tasks[id].cause)
    ensures LogsMatch(tasks', log)
  {
  }

  lemma AllLoggedAppend(tasks: map<nat, Phase>, log: seq<RequestRecord>, r: RequestRecord)
    requires forall id | id in tasks && Started(tasks[id]) ::
      r.requestId == Oxi(id) || exists i :: 0 <= i < |log| && log[i].requestId == Oxi(id)
    ensures AllLogged(tasks, log + [r])
  {
    forall id | id in tasks && Started(tasks[id])
      ensures exists i :: 0 <= i < |log + [r]| && (log + [r])[i].requestId == Oxi(id)
    {
      if r.requestId == Oxi(id) {
        assert (log + [r])[|log|].requestId == Oxi(id);
      } else {
        var i :| 0 <= i < |log| && log[i].requestId == Oxi(id);
        assert (log + [r])[i].requestId == Oxi(id);
      }
    }
  }

  lemma LogStarted(tasks: map<nat, Phase>, log: seq<RequestRecord>, r: RequestRecord)
    requires LogsMatch(tasks, log)
    requires r.requestId.Oxi? && r.finishedAt.None?
    requires r.requestId.n in tasks && tasks[r.requestId.n].Spawned?
    ensures LogsMatch(tasks[r.requestId.n := Checking], log + [r])
  {
    forall q | q in log ensures q.requestId != r.requestId {
      assert RecordAgrees(tasks, q);
    }
  }

  lemma LogConcluded(tasks: map<nat, Phase>, log: seq<RequestRecord>, id: nat, cause: Cause, at: nat)
    requires LogsMatch(tasks, log)
    requires id in tasks && !tasks[id].Spawned? && !LogFinished(tasks[id])
    ensures LogsMatch(tasks[id := Recorded(cause)], FinishNewest(log, Oxi(id), Logged(cause, at)))
    ensures var log' := FinishNewest(log, Oxi(id), Logged(cause, at));
            |log'| == |log| && forall i | 0 <= i < |log| :: log'[i].requestId == log[i].requestId
  {
    var log' := FinishNewest(log, Oxi(id), Logged(cause, at));
    var tasks' := tasks[id := Recorded(cause)];
    var k := Newest(log, Oxi(id));
    forall i | 0 <= i < |log| ensures RecordAgrees(tasks', log'[i]) {
      assert RecordAgrees(tasks, log[i]);
      if i == k {
        assert log'[i] == Completed(log'[i], Logged(cause, at));
      } else {
        assert log[i].requestId != Oxi(id);
      }
    }
  }

  lemma LogBySession(tasks: map<nat, Phase>, log: seq<RequestRecord>, op: Op)
    requires LogsMatch(tasks, log) && SessionOp(op)
    ensures LogsMatch(tasks, Uncapped(log, op))
    ensures !op.Clear? && AllLogged(tasks, log) ==> AllLogged(tasks, Uncapped(log, op))
  {
    var log' := Uncapped(log, op);
    match op
    case Start(r) =>
      if AllLogged(tasks, log) {
        AllLoggedAppend(tasks, log, r);
      }
    case Clear =>
    case Finish(id, c) =>
      var k := Newest(log, id);
      forall i | 0 <= i < |log| ensures log'[i].requestId == log[i].requestId && RecordAgrees(tasks, log'[i]) {
        assert RecordAgrees(tasks, log[i]);
      }
  }

  lemma LogKeptByConclude(s: State, id: nat, cause: Cause, at: nat)
    requires LogInv(s) && id in s.tasks && !s.tasks[id].Spawned? && !LogFinished(s.tasks[id])
    requires Started(s.tasks[id])
    ensures LogInv(Conclude(s, id, cause, at))
  {
    var op := Finish(Oxi(id), Logged(cause, at));
    LogAppended(s.logOps, op);
    LogConcluded(s.tasks, RunUncapped(s.logOps), id, cause, at);
  }

  lemma LogKeptByStart(s: State, id: nat, r: RequestRecord)
    requires LogInv(s) && Enabled(s, StartTask(id, r))
    ensures LogInv(Apply(s, StartTask(id, r)))
  {
    LogAppended(s.logOps, Start(r));
    LogStarted(s.tasks, RunUncapped(s.logOps), r);
    if Clear !in s.logOps {
      AllLoggedAppend(s.tasks[id := Checking], RunUncapped(s.logOps), r);
    }
  }

  predicate WritesLog(step: Step) {
    step.StartTask? || step.RejectOffline? || step.RejectUrl? || step.NetworkResult? || step.SessionLogs?
    || (step.Decide? && (step.verdict.Fail? || step.verdict.Fulfill?))
  }

  /** A step that does not write the log starts no task, and leaves the finished ones as they are. */
  lemma QuietStepStarts(s: State, step: Step)
    requires Enabled(s, step) && QueueInv(s) && !WritesLog(step)
    ensures var s' := Apply(s, step);
            && s'.logOps == s.logOps && s'.log == s.log
            && (forall id | id in s'.tasks && Started(s'.tasks[id]) :: id in s.tasks && Started(s.tasks[id]))
            && (forall id | id in s.tasks && !s.tasks[id].Spawned? ::
                  && id in s'.tasks && !s'.tasks[id].Spawned?
                  && LogFinished(s'.tasks[id]) == LogFinished(s.tasks[id])
                  && (LogFinished(s.tasks[id]) ==> s'.tasks[id].cause == s.tasks[id].cause))
  {
  }

  lemma LogKeptByQuietStep(s: State, step: Step)
    requires Enabled(s, step) && QueueInv(s) && LogInv(s) && !WritesLog(step)
    ensures LogInv(Apply(s, step))
  {
    var s' := Apply(s, step);
    QuietStepStarts(s, step);
    LogFramed(s.tasks, s'.tasks, RunUncapped(s.logOps));
  }

  lemma LogKept(s: State, step: Step)
    requires Enabled(s, step) && QueueInv(s) && LogInv(s)
    ensures LogInv(Apply(s, step))
  {
    if !WritesLog(step) {
      LogKeptByQuietStep(s, step);
      return;
    }
    match step
    case RejectOffline(id, at) => LogKeptByConclude(s, id, Offline, at);
    case RejectUrl(id, at) => LogKeptByConclude(s, id, InvalidUrl, at);
    case NetworkResult(id, cause, at) => LogKeptByConclude(s, id, cause, at);
    case Decide(id, verdict, at) =>
      LogKeptByConclude(s, id, if verdict.Fail? then ClientFailed else ClientFulfilled(verdict.code), at);
    case StartTask(id, r) => LogKeptByStart(s, id, r);
    case SessionLogs(op) =>
      LogAppended(s.logOps, op);
      LogBySession(s.tasks, RunUncapped(s.logOps), op);
    case _ =>
  }

  lemma StepKeepsInv(s: State, step: Step)
    requires Enabled(s, step) && Inv(s)
    ensures Inv(Apply(s, step))
  {
    QueueKept(s, step);
    CounterKept(s, step);
    AnswerKept(s, step);
    LogKept(s, step);
  }

  lemma LeakNeverMended(s: State, step: Step)
    requires Enabled(s, step)
    ensures Apply(s, step).leaked >= s.leaked
  {
  }

  lemma InvKept(s: State, s': State)
    requires Inv(s) && Next(s, s')
    ensures Inv(s') && s'.leaked >= s.leaked
  {
    var step :| Enabled(s, step) && s' == Apply(s, step);
    StepKeepsInv(s, step);
    LeakNeverMended(s, step);
  }

  /** Every state of every interleaving keeps the invariant. */
  lemma {:induction false} RunsKeepInv(trace: seq<State>, i: nat)
    requires IsRun(trace) && i < |trace|
    ensures Inv(trace[i])
  {
    if i > 0 {
      RunsKeepInv(trace, i - 1);
      assert Next(trace[i - 1], trace[i - 1 + 1]);
      InvKept(trace[i - 1], trace[i]);
    }
  }

  // ---------- conservation ----------

  /** The ids 1 to n. */
  function UpTo(n: nat): (ids: set<nat>)
    ensures |ids| == n && forall id :: id in ids <==> 1 <= id <= n
  {
    if n == 0 then {} else UpTo(n - 1) + {n}
  }

  lemma ReceivedIds(s: State, id: nat)
    requires QueueInv(s)
    ensures id in s.dequeued <==> id in UpTo(|s.dequeued|)
    ensures id in s.dequeued <==> id in AnsweredIds(s.tasks) || id in Owing(s)
  {
    if 1 <= id <= |s.dequeued| {
      assert s.dequeued[id - 1] == id;
    }
  }

  lemma ReceivedCount(s: State)
    requires QueueInv(s)
    ensures |s.dequeued| == |AnsweredIds(s.tasks)| + |Owing(s)| && AnsweredIds(s.tasks) !! Owing(s)
  {
    var received, answered, owing := UpTo(|s.dequeued|), AnsweredIds(s.tasks), Owing(s);
    forall id ensures id in received <==> id in answered + owing {
      ReceivedIds(s, id);
    }
    assert received == answered + owing;
    forall id | id in answered ensures id !in owing {
      assert s.dispatching != Some(id);
    }
  }

  lemma AnsweredIffResponse(tasks: map<nat, Phase>, responses: seq<Response>, id: nat)
    requires AnswersMatch(tasks, responses)
    ensures id in AnsweredIds(tasks) <==> exists r :: r in responses && r.id == id
  {
    if id in AnsweredIds(tasks) {
      assert Response(id, tasks[id].cause) in responses;
    }
  }

  /** Requests received = answers sent + requests still owed one; nothing is answered twice, and what
      is answered was received. */
  lemma Conservation(trace: seq<State>, i: nat)
    requires IsRun(trace) && i < |trace|
    ensures var s := trace[i];
            && |s.dequeued| == |s.responses| + |Owing(s)|
            && (forall id | id in s.dequeued :: id in Owing(s) <==> !exists r :: r in s.responses && r.id == id)
            && (forall r | r in s.responses :: r.id in s.dequeued)
            && (forall j, k | 0 <= j < k < |s.responses| :: s.responses[j].id != s.responses[k].id)
  {
    RunsKeepInv(trace, i);
    var s := trace[i];
    ReceivedCount(s);
    forall id | id in s.dequeued ensures id in Owing(s) <==> !exists r :: r in s.responses && r.id == id {
      ReceivedIds(s, id);
      AnsweredIffResponse(s.tasks, s.responses, id);
    }
    forall r | r in s.responses ensures r.id in s.dequeued {
      ReceivedIds(s, r.id);
    }
  }

  /** A zero counter means exactly: no guard, no stylesheet increment, every spawned task over. */
  lemma ZeroCounter(trace: seq<State>, i: nat)
    requires IsRun(trace) && i < |trace|
    ensures var s := trace[i];
            && s.counter >= 0
            && (s.counter == 0 <==>
                s.guards == 0 && s.leaked == 0 && forall id | id in s.tasks :: s.tasks[id].Done?)
  {
    RunsKeepInv(trace, i);
    var s := trace[i];
    if s.counter == 0 {
      NothingUncounted(s.tasks);
    } else if forall id | id in s.tasks :: s.tasks[id].Done? {
      assert Uncounted(s.tasks) == {};
    }
  }

  lemma RecordOfAnswer(tasks: map<nat, Phase>, responses: seq<Response>, r: Response, q: RequestRecord)
    requires AnswersMatch(tasks, responses) && r in responses
    requires RecordAgrees(tasks, q) && q.requestId == Oxi(r.id)
    ensures q.finishedAt.Some? && exists at :: q == Completed(q, Logged(r.cause, at))
    ensures q.status == if r.cause.Offline? || r.cause.TransportFailed? then None else Some(r.Status())
  {
  }

  lemma KeptRecords(s: State, q: RequestRecord)
    requires LogInv(s) && q in s.log
    ensures RecordAgrees(s.tasks, q)
  {
    BoundedLogRefinesUnbounded(s.logOps);
    assert q in RunUncapped(s.logOps);
  }

  lemma StartedIsLogged(s: State, id: nat)
    requires LogInv(s) && id in s.tasks && Started(s.tasks[id]) && Clear !in s.logOps
    ensures exists q :: q in RunUncapped(s.logOps) && q.requestId == Oxi(id)
  {
    var log := RunUncapped(s.logOps);
    var i :| 0 <= i < |log| && log[i].requestId == Oxi(id);
    assert log[i] in log;
  }

  /** The record of an answered request, when the capped log still has it, is finished with what the terminal
      branch writes: no status for offline and transport failures, else the status of that very answer. */
  lemma AnsweredIsLogged(trace: seq<State>, i: nat, r: Response)
    requires IsRun(trace) && i < |trace| && r in trace[i].responses
    ensures forall q | q in trace[i].log && q.requestId == Oxi(r.id) ::
              && q.finishedAt.Some? && (exists at :: q == Completed(q, Logged(r.cause, at)))
              && q.status == if r.cause.Offline? || r.cause.TransportFailed? then None else Some(r.Status())
    ensures Clear !in trace[i].logOps ==>
              exists q :: q in RunUncapped(trace[i].logOps) && q.requestId == Oxi(r.id)
  {
    RunsKeepInv(trace, i);
    var s := trace[i];
    forall q | q in s.log && q.requestId == Oxi(r.id)
      ensures q.finishedAt.Some? && (exists at :: q == Completed(q, Logged(r.cause, at)))
      ensures q.status == if r.cause.Offline? || r.cause.TransportFailed? then None else Some(r.Status())
    {
      KeptRecords(s, q);
      RecordOfAnswer(s.tasks, s.responses, r, q);
    }
    if Clear !in s.logOps {
      StartedIsLogged(s, r.id);
    }
  }

  /** The step that decides how a request is answered. */
  predicate Decides(step: Step, id: nat, cause: Cause) {
    match cause
    case Offline => step.RejectOffline? && step.id == id
    case InvalidUrl => step.RejectUrl? && step.id == id
    case ClientFailed => step.Decide? && step.id == id && step.verdict.Fail?
    case ClientFulfilled(code) => step.Decide? && step.id == id && step.verdict == Fulfill(code)
    case _ => step.NetworkResult? && step.id == id && step.cause == cause
  }

  ghost predicate DecidedAt(trace: seq<State>, j: nat, id: nat, cause: Cause) {
    j + 1 < |trace| && exists step ::
      Enabled(trace[j], step) && trace[j + 1] == Apply(trace[j], step) && Decides(step, id, cause)
  }

  lemma StepDecides(s: State, step: Step, id: nat)
    requires Enabled(s, step) && id in Apply(s, step).tasks && LogFinished(Apply(s, step).tasks[id])
    ensures var cause := Apply(s, step).tasks[id].cause;
            (id in s.tasks && LogFinished(s.tasks[id]) && s.tasks[id].cause == cause) || Decides(step, id, cause)
  {
  }

  ghost predicate HasOutcome(s: State, id: nat, cause: Cause) {
    id in s.tasks && LogFinished(s.tasks[id]) && s.tasks[id].cause == cause
  }

  lemma DecidedOrOlder(trace: seq<State>, i: nat, id: nat, cause: Cause)
    requires IsRun(trace) && i < |trace| && HasOutcome(trace[i], id, cause)
    ensures i > 0 && (HasOutcome(trace[i - 1], id, cause) || DecidedAt(trace, i - 1, id, cause))
  {
    assert i > 0;
    assert Next(trace[i - 1], trace[i - 1 + 1]);
    var step :| Enabled(trace[i - 1], step) && trace[i] == Apply(trace[i - 1], step);
    StepDecides(trace[i - 1], step, id);
  }

  lemma {:induction false} OutcomeWasDecided(trace: seq<State>, i: nat, id: nat, cause: Cause) returns (j: nat)
    requires IsRun(trace) && i < |trace| && HasOutcome(trace[i], id, cause)
    ensures j < i && DecidedAt(trace, j, id, cause)
  {
    DecidedOrOlder(trace, i, id, cause);
    if DecidedAt(trace, i - 1, id, cause) {
      j := i - 1;
    } else {
      j := OutcomeWasDecided(trace, i - 1, id, cause);
    }
  }

  /** Every answer goes back to the one step that decided it: offline or URL check, client verdict, or network. */
  lemma AnswersHaveGrounds(trace: seq<State>, i: nat, r: Response) returns (j: nat)
    requires IsRun(trace) && i < |trace| && r in trace[i].responses
    ensures j < i && DecidedAt(trace, j, r.id, r.cause)
  {
    RunsKeepInv(trace, i);
    j := OutcomeWasDecided(trace, i, r.id, r.cause);
  }

  /** When an observer reads zero, every request received so far has been answered, unless one sits in
      the gap between being received and being counted. */
  lemma ZeroMeansAnswered(trace: seq<State>, i: nat)
    requires IsRun(trace) && i < |trace| && trace[i].counter == 0
    ensures var s := trace[i];
            (forall id | id in s.dequeued :: exists r :: r in s.responses && r.id == id)
            <==> s.dispatching.None?
    ensures var s := trace[i];
            |s.responses| == |s.dequeued| - (if s.dispatching.Some? then 1 else 0)
  {
    ZeroCounter(trace, i);
    Conservation(trace, i);
    RunsKeepInv(trace, i);
    var s := trace[i];
    if s.dispatching.Some? {
      assert Owing(s) == {s.dispatching.value};
      assert s.dequeued[|s.dequeued| - 1] == s.dispatching.value;
    } else {
      assert Owing(s) == {};
    }
  }

  /** The gap is real: one request received, nothing answered, counter zero. */
  lemma DispatchGap() returns (trace: seq<State>)
    ensures IsRun(trace)
    ensures var s := trace[|trace| - 1]; s.counter == 0 && s.dequeued == [1] && s.responses == []
  {
    var s1 := Apply(INIT, Issue);
    var s2 := Apply(s1, Dequeue);
    trace := [INIT, s1, s2];
    assert Next(INIT, s1) && Next(s1, s2);
  }

  lemma RunExtends(trace: seq<State>, step: Step)
    requires IsRun(trace) && Enabled(trace[|trace| - 1], step)
    ensures IsRun(trace + [Apply(trace[|trace| - 1], step)])
  {
    var longer := trace + [Apply(trace[|trace| - 1], step)];
    forall i | 0 <= i < |longer| - 1 ensures Next(longer[i], longer[i + 1]) {
      if i < |trace| - 1 {
        assert Next(trace[i], trace[i + 1]);
      }
    }
  }

  /** The steps that raise the counter. */
  predicate CountsUp(step: Step) { step.Spawn? || step.GuardNew? || step.StylesheetIncrement? }

  ghost predicate CountedUpAt(trace: seq<State>, k: int) {
    0 <= k < |trace| - 1 && exists step ::
      Enabled(trace[k], step) && CountsUp(step) && trace[k + 1] == Apply(trace[k], step)
  }

  lemma CounterMoves(s: State, step: Step)
    requires Enabled(s, step)
    ensures CountsUp(step) ==> Apply(s, step).counter == s.counter + 1
    ensures !CountsUp(step) ==> Apply(s, step).counter <= s.counter
  {
  }

  lemma ZeroStep(trace: seq<State>, k: nat)
    requires IsRun(trace) && k + 1 < |trace| && trace[k].counter == 0
    ensures trace[k + 1].counter == 0 <==> !CountedUpAt(trace, k)
  {
    if CountedUpAt(trace, k) {
      var step :| Enabled(trace[k], step) && CountsUp(step) && trace[k + 1] == Apply(trace[k], step);
      CounterMoves(trace[k], step);
    } else {
      assert Next(trace[k], trace[k + 1]);
      var step :| Enabled(trace[k], step) && trace[k + 1] == Apply(trace[k], step);
      CounterMoves(trace[k], step);
      ZeroCounter(trace, k + 1);
    }
  }

  ghost predicate ZeroThroughout(trace: seq<State>, a: nat, b: nat) {
    forall k: nat | a <= k <= b && k < |trace| :: trace[k].counter == 0
  }

  ghost predicate NoneCounted(trace: seq<State>, a: nat, b: nat) {
    forall k: nat | a <= k < b :: !CountedUpAt(trace, k)
  }

  /** From a zero on, the counter stays at zero up to some later state if and only if no step in between counts. */
  lemma {:induction false} StaysZeroIff(trace: seq<State>, a: nat, b: nat)
    requires IsRun(trace) && a <= b < |trace| && trace[a].counter == 0
    ensures ZeroThroughout(trace, a, b) <==> NoneCounted(trace, a, b)
    decreases b
  {
    if a < b {
      StaysZeroIff(trace, a, b - 1);
      if ZeroThroughout(trace, a, b - 1) {
        ZeroStep(trace, b - 1);
      }
    }
  }

  /** One request comes, is counted, answered and un-counted: the counter goes from zero to one and back. */
  lemma OneRequest() returns (trace: seq<State>)
    ensures IsRun(trace) && |trace| == 8 && trace[0] == INIT
    ensures trace[3].counter == 1 && trace[3].responses == []
    ensures trace[7].counter == 0 && trace[7].responses == [Response(1, Offline)]
  {
    var s1 := Apply(INIT, Issue);
    var s2 := Apply(s1, Dequeue);
    var s3 := Apply(s2, Spawn);
    RunExtends([INIT], Issue);
    RunExtends([INIT, s1], Dequeue);
    RunExtends([INIT, s1, s2], Spawn);
    trace := RejectedOffline([INIT, s1, s2, s3], 1);
  }

  /** A freshly spawned task is refused offline, answered and un-counted. */
  lemma RejectedOffline(trace: seq<State>, id: nat) returns (longer: seq<State>)
    requires IsRun(trace) && Idle(trace[|trace| - 1])
    requires id in trace[|trace| - 1].tasks && trace[|trace| - 1].tasks[id].Spawned?
    ensures IsRun(longer) && |longer| == |trace| + 4 && trace <= longer
    ensures var s, s' := trace[|trace| - 1], longer[|trace| + 3];
            s'.counter == s.counter - 1 && s'.responses == s.responses + [Response(id, Offline)]
  {
    var s := trace[|trace| - 1];
    var start := StartTask(id, RequestRecord(Oxi(id), "", "", None, [], "", None, None));
    var s1 := Apply(s, start);
    var s2 := Apply(s1, RejectOffline(id, 0));
    var s3 := Apply(s2, SendAnswer(id));
    RunExtends(trace, start);
    RunExtends(trace + [s1], RejectOffline(id, 0));
    RunExtends(trace + [s1] + [s2], SendAnswer(id));
    RunExtends(trace + [s1] + [s2] + [s3], Decrement(id));
    longer := trace + [s1] + [s2] + [s3] + [Apply(s3, Decrement(id))];
  }

  /** One stylesheet: its fetch counts once by hand and its guard comes and goes, and nothing is left in flight. */
  lemma StylesheetLeaks() returns (trace: seq<State>)
    ensures IsRun(trace)
    ensures trace[|trace| - 1] == INIT.(counter := 1, leaked := 1)
  {
    trace := [INIT];
    RunExtends(trace, StylesheetIncrement);
    trace := trace + [INIT.(counter := 1, leaked := 1)];
    RunExtends(trace, GuardNew);
    trace := trace + [INIT.(counter := 2, leaked := 1, guards := 1)];
    RunExtends(trace, GuardDrop);
    trace := trace + [INIT.(counter := 1, leaked := 1)];
  }

  /** A task still running when the JS side goes away is dropped, and never un-counted. */
  lemma DisconnectAbandons() returns (trace: seq<State>)
    ensures IsRun(trace)
    ensures var s := trace[|trace| - 1];
            s.tasks == map[1 := Abandoned] && s.counter == 1 && s.guards == 0 && s.leaked == 0 && s.responses == []
  {
    var s1 := Apply(INIT, Issue);
    var s2 := Apply(s1, Dequeue);
    var s3 := Apply(s2, Spawn);
    RunExtends([INIT], Issue);
    RunExtends([INIT, s1], Dequeue);
    RunExtends([INIT, s1, s2], Spawn);
    RunExtends([INIT, s1, s2, s3], Disconnect);
    trace := [INIT, s1, s2, s3, Apply(s3, Disconnect)];
    assert trace == [INIT, s1, s2, s3] + [Apply(s3, Disconnect)];
  }

  // ---------- can the counter come back to zero? ----------

  ghost predicate Reaches(s: State, steps: seq<Step>, s': State)
    decreases |steps|
  {
    if steps == [] then s == s'
    else Enabled(s, steps[0]) && Reaches(Apply(s, steps[0]), steps[1..], s')
  }

  lemma {:induction false} ReachesTransitive(s: State, first: seq<Step>, mid: State, second: seq<Step>, s': State)
    requires Reaches(s, first, mid) && Reaches(mid, second, s')
    ensures Reaches(s, first + second, s')
    decreases |first|
  {
    if first == [] {
      assert first + second == second;
    } else {
      assert (first + second)[1..] == first[1..] + second;
      ReachesTransitive(Apply(s, first[0]), first[1..], mid, second, s');
    }
  }

  lemma {:induction false} ReachesKeepsInv(s: State, steps: seq<Step>, s': State)
    requires Inv(s) && Reaches(s, steps, s')
    ensures Inv(s') && s'.leaked >= s.leaked
    ensures !s.connected ==> !s'.connected && s'.tasks == s.tasks
    decreases |steps|
  {
    if steps != [] {
      StepKeepsInv(s, steps[0]);
      LeakNeverMended(s, steps[0]);
      ReachesKeepsInv(Apply(s, steps[0]), steps[1..], s');
    }
  }

  /** One poll that moves an unfinished task a phase closer to its end. */
  function Advance(s: State, id: nat): Step
    requires id in s.tasks && !s.tasks[id].Done? && !s.tasks[id].Abandoned?
  {
    match s.tasks[id]
    case Spawned => StartTask(id, RequestRecord(Oxi(id), "", "", None, [], "", None, None))
    case Checking => RejectOffline(id, 0)
    case Paused => Decide(id, Fail, 0)
    case Fetching => NetworkResult(id, TransportFailed, 0)
    case Recorded(_) => SendAnswer(id)
    case Sent(_) => Decrement(id)
  }

  function Remaining(p: Phase): nat {
    match p
    case Spawned => 4
    case Checking => 3
    case Paused => 3
    case Fetching => 3
    case Recorded(_) => 2
    case Sent(_) => 1
    case _ => 0
  }

  lemma AdvanceMoves(s: State, id: nat)
    requires s.connected && s.dispatching.None?
    requires id in s.tasks && !s.tasks[id].Done? && !s.tasks[id].Abandoned?
    requires Idle(s) || !AtAwait(s.tasks[id])
    ensures Enabled(s, Advance(s, id))
    ensures var mid := Apply(s, Advance(s, id));
            && mid.connected && mid.dispatching.None?
            && mid.queue == s.queue && mid.guards == s.guards && mid.leaked == s.leaked && mid.minted == s.minted
            && id in mid.tasks && !mid.tasks[id].Abandoned? && (mid.tasks[id].Done? || !AtAwait(mid.tasks[id]))
            && Remaining(mid.tasks[id]) < Remaining(s.tasks[id])
            && Uncounted(mid.tasks) == Uncounted(s.tasks) - (if mid.tasks[id].Done? then {id} else {})
  {
    var mid := Apply(s, Advance(s, id));
    assert mid.tasks == s.tasks[id := mid.tasks[id]];
  }

  /** A task that may be polled can be driven to its end without disturbing anything else. */
  lemma {:induction false} FinishTask(s: State, id: nat) returns (steps: seq<Step>, s': State)
    requires s.connected && s.dispatching.None?
    requires id in s.tasks && !s.tasks[id].Done? && !s.tasks[id].Abandoned?
    requires Idle(s) || !AtAwait(s.tasks[id])
    ensures Reaches(s, steps, s') && s'.connected && s'.dispatching.None?
    ensures s'.queue == s.queue && s'.guards == s.guards && s'.leaked == s.leaked && s'.minted == s.minted
    ensures Uncounted(s'.tasks) == Uncounted(s.tasks) - {id}
    decreases Remaining(s.tasks[id])
  {
    var step := Advance(s, id);
    AdvanceMoves(s, id);
    var mid := Apply(s, step);
    if mid.tasks[id].Done? {
      s' := mid;
      steps := [step];
      assert Reaches(mid, [], s') && steps[1..] == [];
    } else {
      var rest;
      rest, s' := FinishTask(mid, id);
      steps := [step] + rest;
      assert steps[1..] == rest;
    }
  }

  /** Still connected, nothing new issued or leaked, and less to do: lexicographically, in the queue, between
      receipt and counting, in the tasks, in the guards. */
  ghost predicate Closer(s: State, mid: State) {
    && mid.connected && mid.minted == s.minted && mid.leaked == s.leaked && |mid.queue| <= |s.queue|
    && (|mid.queue| == |s.queue| ==>
        && (mid.dispatching.Some? ==> s.dispatching.Some?)
        && (mid.dispatching.Some? == s.dispatching.Some? ==>
            && |Uncounted(mid.tasks)| <= |Uncounted(s.tasks)|
            && (|Uncounted(mid.tasks)| == |Uncounted(s.tasks)| ==> mid.guards < s.guards)))
  }

  lemma OneStep(s: State, step: Step)
    requires Inv(s) && Enabled(s, step)
    ensures Reaches(s, [step], Apply(s, step)) && Inv(Apply(s, step))
  {
    assert Reaches(Apply(s, step), [step][1..], Apply(s, step));
    StepKeepsInv(s, step);
  }

  lemma FinishedIsCloser(s: State, id: nat) returns (steps: seq<Step>, mid: State)
    requires Inv(s) && s.connected && s.dispatching.None? && id in s.tasks && !s.tasks[id].Done?
    requires Idle(s) || !AtAwait(s.tasks[id])
    ensures Reaches(s, steps, mid) && Inv(mid) && Closer(s, mid)
  {
    steps, mid := FinishTask(s, id);
    ReachesKeepsInv(s, steps, mid);
    assert id in Uncounted(s.tasks);
  }

  /** Whatever there is to do, some steps bring a connected bridge closer to having done it. */
  lemma GetsCloser(s: State) returns (steps: seq<Step>, mid: State)
    requires Inv(s) && s.connected
    requires s.queue != [] || s.dispatching.Some? || Uncounted(s.tasks) != {} || s.guards > 0
    ensures Reaches(s, steps, mid) && Inv(mid) && Closer(s, mid)
  {
    if s.dispatching.Some? {
      OneStep(s, Spawn);
      return [Spawn], Apply(s, Spawn);
    } else if id :| id in s.tasks && !AtAwait(s.tasks[id]) {
      steps, mid := FinishedIsCloser(s, id);
    } else if id :| id in s.tasks && !s.tasks[id].Done? {
      steps, mid := FinishedIsCloser(s, id);
    } else if s.queue != [] {
      OneStep(s, Dequeue);
      return [Dequeue], Apply(s, Dequeue);
    } else {
      OneStep(s, GuardDrop);
      return [GuardDrop], Apply(s, GuardDrop);
    }
  }

  /** A connected bridge can be brought to having nothing left to do. */
  lemma {:induction false} CanDrain(s: State) returns (steps: seq<Step>, s': State)
    requires Inv(s) && s.connected
    ensures Reaches(s, steps, s') && Inv(s')
    ensures s'.queue == [] && s'.minted == s.minted && s'.dispatching.None? && Uncounted(s'.tasks) == {}
    ensures s'.guards == 0 && s'.leaked == s.leaked
    decreases |s.queue|, s.dispatching.Some?, |Uncounted(s.tasks)|, s.guards
  {
    if s.queue == [] && s.dispatching.None? && Uncounted(s.tasks) == {} && s.guards == 0 {
      return [], s;
    }
    var first, mid := GetsCloser(s);
    var rest;
    rest, s' := CanDrain(mid);
    steps := first + rest;
    ReachesTransitive(s, first, mid, rest, s');
  }

  ghost predicate CanReachZero(s: State) {
    exists steps, s' :: Reaches(s, steps, s') && s'.counter == 0
  }

  /** The counter can come back to zero from a state of a run if and only if no stylesheet was ever
      fetched and no task was abandoned by a disconnect. */
  lemma ZeroReachableIff(trace: seq<State>, i: nat)
    requires IsRun(trace) && i < |trace|
    ensures var s := trace[i];
            CanReachZero(s) <==> s.leaked == 0 && forall id | id in s.tasks :: !s.tasks[id].Abandoned?
  {
    RunsKeepInv(trace, i);
    var s := trace[i];
    if steps, s' :| Reaches(s, steps, s') && s'.counter == 0 {
      ReachesKeepsInv(s, steps, s');
      NothingUncounted(s'.tasks);
    }
    if s.leaked == 0 && forall id | id in s.tasks :: !s.tasks[id].Abandoned? {
      if s.connected {
        var steps, s' := CanDrain(s);
      } else {
        assert Uncounted(s.tasks) == {};
        var steps, s' := DropGuards(s);
      }
    }
  }

  lemma {:induction false} DropGuards(s: State) returns (steps: seq<Step>, s': State)
    ensures Reaches(s, steps, s') && s'.counter == s.counter - s.guards && s'.guards == 0
    decreases s.guards
  {
    if s.guards == 0 {
      return [], s;
    }
    var rest;
    rest, s' := DropGuards(Apply(s, GuardDrop));
    steps := [GuardDrop] + rest;
    assert steps[1..] == rest;
  }

  lemma DrainedIsAnswered(s: State)
    requires QueueInv(s) && AnswersMatch(s.tasks, s.responses)
    requires s.queue == [] && s.dispatching.None? && Uncounted(s.tasks) == {}
    ensures |s.responses| == s.minted
  {
    NothingUncounted(s.tasks);
    assert AnsweredIds(s.tasks) == UpTo(s.minted);
  }

  /** Nothing is lost on the way: from any state of a run that is still connected, some schedule
      answers every request the JS thread has issued. */
  lemma EveryRequestCanBeAnswered(trace: seq<State>, i: nat)
    requires IsRun(trace) && i < |trace| && trace[i].connected
    ensures exists steps, s' :: Reaches(trace[i], steps, s') && |s'.responses| == trace[i].minted
  {
    RunsKeepInv(trace, i);
    var steps, s' := CanDrain(trace[i]);
    DrainedIsAnswered(s');
  }

  /** After one stylesheet fetch no observer ever reads zero again. */
  lemma {:induction false} StylesheetsHoldTheCounterUp(trace: seq<State>, i: nat, j: nat)
    requires IsRun(trace) && i <= j < |trace|
    ensures trace[j].leaked >= trace[i].leaked && trace[j].counter >= trace[i].leaked
    decreases j
  {
    RunsKeepInv(trace, j);
    if i < j {
      StylesheetsHoldTheCounterUp(trace, i, j - 1);
      assert Next(trace[j - 1], trace[j - 1 + 1]);
      var step :| Enabled(trace[j - 1], step) && trace[j] == Apply(trace[j - 1], step);
      LeakNeverMended(trace[j - 1], step);
    }
  }
}

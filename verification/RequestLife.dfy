/** The life of one bridge request, said over the steps of a run instead of the phases of its task: which step may
    follow which, what is answered and logged, and what the counter adds up to. */
module RequestLife {
  import opened Text
  import opened RequestLog
  import opened FetchBridge

  /** A run with the step that led from each state to the next. */
  ghost predicate Labelled(trace: seq<State>, steps: seq<Step>) {
    && |trace| == |steps| + 1 && trace[0] == INIT
    && forall i {:trigger steps[i]} | 0 <= i < |steps| ::
         Enabled(trace[i], steps[i]) && trace[i + 1] == Apply(trace[i], steps[i])
  }

  lemma LabelledIsRun(trace: seq<State>, steps: seq<Step>)
    requires Labelled(trace, steps)
    ensures IsRun(trace)
  {
    forall i | 0 <= i < |trace| - 1 ensures Next(trace[i], trace[i + 1]) {
      assert Enabled(trace[i], steps[i]);
    }
  }

  // ---------- the order of steps ----------

  /** The last step of this task, if it has made one. */
  function LastOf(steps: seq<Step>, id: nat): Option<Step> {
    if steps == [] then None
    else if TaskOf(steps[|steps| - 1]) == Some(id) then Some(steps[|steps| - 1])
    else LastOf(steps[..|steps| - 1], id)
  }

  /** The network is asked after a URL no pattern selects, or when the client lets the request go on or says nothing. */
  predicate SendsToNetwork(step: Step) {
    step.PassThrough? || (step.Decide? && (step.verdict == Continue || step.verdict == NoDecision))
  }

  /** The answer is known: refused before sending, given by the client, or come from the network. */
  predicate Settles(step: Step) {
    || step.RejectOffline? || step.RejectUrl? || step.NetworkResult?
    || (step.Decide? && step.verdict != Continue && step.verdict != NoDecision)
  }

  /** The order the code goes through: log the start, check, pause for the client if the URL is selected, ask the
      network unless the client answered, answer, un-count. */
  predicate MayFollow(last: Option<Step>, step: Step) {
    match step
    case StartTask(_, _) => last == None
    case RejectOffline(_, _) => last.Some? && last.value.StartTask?
    case RejectUrl(_, _) => last.Some? && last.value.StartTask?
    case Pause(_) => last.Some? && last.value.StartTask?
    case PassThrough(_) => last.Some? && last.value.StartTask?
    case Decide(_, _, _) => last.Some? && last.value.Pause?
    case NetworkResult(_, _, _) => last.Some? && SendsToNetwork(last.value)
    case SendAnswer(_) => last.Some? && Settles(last.value)
    case Decrement(_) => last.Some? && last.value.SendAnswer?
    case _ => false
  }

  /** Where the task of a request stands after its last step. */
  ghost predicate StandsAt(p: Phase, last: Option<Step>) {
    match last
    case None => p.Spawned?
    case Some(step) =>
      if step.StartTask? then p == Checking
      else if step.Pause? then p == Paused
      else if SendsToNetwork(step) then p == Fetching
      else if Settles(step) then p.Recorded? && Decides(step, TaskOf(step).value, p.cause)
      else if step.SendAnswer? then p.Sent?
      else p.Done?
  }

  ghost predicate Stands(s: State, steps: seq<Step>, id: nat) {
    if id in s.tasks then s.tasks[id].Abandoned? || StandsAt(s.tasks[id], LastOf(steps, id))
    else LastOf(steps, id) == None
  }

  lemma LastOfMore(steps: seq<Step>, step: Step, id: nat)
    ensures LastOf(steps + [step], id) == if TaskOf(step) == Some(id) then Some(step) else LastOf(steps, id)
  {
    assert (steps + [step])[..|steps|] == steps;
  }

  /** A step of another task, or of none, leaves this one where it stands. */
  lemma OthersStand(s: State, steps: seq<Step>, step: Step, id: nat)
    requires Enabled(s, step) && QueueInv(s) && Stands(s, steps, id) && TaskOf(step) != Some(id)
    ensures Stands(Apply(s, step), steps + [step], id)
  {
    LastOfMore(steps, step, id);
  }

  lemma OwnStands(s: State, steps: seq<Step>, step: Step, id: nat)
    requires Enabled(s, step) && Stands(s, steps, id) && TaskOf(step) == Some(id)
    ensures MayFollow(LastOf(steps, id), step) && Stands(Apply(s, step), steps + [step], id)
  {
    LastOfMore(steps, step, id);
  }

  lemma {:induction false} AllStand(trace: seq<State>, steps: seq<Step>, n: nat, id: nat)
    requires Labelled(trace, steps) && n <= |steps|
    ensures Stands(trace[n], steps[..n], id)
  {
    if n > 0 {
      AllStand(trace, steps, n - 1, id);
      LabelledIsRun(trace, steps);
      RunsKeepInv(trace, n - 1);
      assert steps[..n] == steps[..n - 1] + [steps[n - 1]] && trace[n - 1 + 1] == Apply(trace[n - 1], steps[n - 1]);
      if TaskOf(steps[n - 1]) == Some(id) {
        OwnStands(trace[n - 1], steps[..n - 1], steps[n - 1], id);
      } else {
        OthersStand(trace[n - 1], steps[..n - 1], steps[n - 1], id);
      }
    }
  }

  /** What the step itself must bring: a fresh record of the request, or an outcome the network can have. */
  predicate Admissible(step: Step) {
    match step
    case StartTask(id, r) => r.requestId == Oxi(id) && r.finishedAt == None && r.status == None
    case NetworkResult(_, cause, _) => cause.Delivered? || cause.BodyUnreadable? || cause.TransportFailed?
    case _ => true
  }

  /** The steps before which the task waits: the runtime must be free to poll it. */
  predicate AfterAwait(step: Step) { step.StartTask? || step.Decide? || step.NetworkResult? }

  /** In every run, a step of a task can be taken exactly when it may follow the last one that task took. */
  lemma NextStepIff(trace: seq<State>, steps: seq<Step>, n: nat, step: Step, id: nat)
    requires Labelled(trace, steps) && n <= |steps| && TaskOf(step) == Some(id)
    ensures Enabled(trace[n], step) <==>
            && id in trace[n].tasks && trace[n].tasks[id] != Abandoned
            && MayFollow(LastOf(steps[..n], id), step) && Admissible(step)
            && (AfterAwait(step) ==> Idle(trace[n]))
  {
    AllStand(trace, steps, n, id);
  }

  predicate Running(p: Phase) { p.Checking? || p.Recorded? || p.Sent? }

  /** At most one task is between two await points, and none while a request is being received. */
  ghost predicate AtMostOneRuns(s: State) {
    && (forall i, j | i in s.tasks && j in s.tasks && Running(s.tasks[i]) && Running(s.tasks[j]) :: i == j)
    && (s.dispatching.Some? ==> forall i | i in s.tasks :: !Running(s.tasks[i]))
  }

  /** Only the task that takes the step starts to run, and only if nothing else did. */
  lemma OneAtATimeByTask(s: State, step: Step, id: nat)
    requires Enabled(s, step) && AtMostOneRuns(s) && TaskOf(step) == Some(id)
    ensures AtMostOneRuns(Apply(s, step))
  {
    var s' := Apply(s, step);
    assert s'.tasks == s.tasks[id := s'.tasks[id]];
    assert Running(s'.tasks[id]) ==> Idle(s) || Running(s.tasks[id]);
  }

  lemma OneAtATimeKept(s: State, step: Step)
    requires Enabled(s, step) && AtMostOneRuns(s)
    ensures AtMostOneRuns(Apply(s, step))
  {
    if TaskOf(step).Some? {
      OneAtATimeByTask(s, step, TaskOf(step).value);
    }
  }

  /** Only one task runs at a time. */
  lemma {:induction false} OneAtATime(trace: seq<State>, n: nat)
    requires IsRun(trace) && n < |trace|
    ensures AtMostOneRuns(trace[n])
  {
    if n > 0 {
      OneAtATime(trace, n - 1);
      assert Next(trace[n - 1], trace[n - 1 + 1]);
      var step :| Enabled(trace[n - 1], step) && trace[n] == Apply(trace[n - 1], step);
      OneAtATimeKept(trace[n - 1], step);
    }
  }

  // ---------- who may answer ----------

  /** The request is with the network, or was answered by it, or dropped. */
  ghost predicate OnNetwork(s: State, id: nat) {
    && id in s.tasks
    && var p := s.tasks[id];
       p.Fetching? || p.Abandoned?
       || (LogFinished(p) && (p.cause.Delivered? || p.cause.BodyUnreadable? || p.cause.TransportFailed?))
  }

  lemma StaysOnNetwork(s: State, step: Step, id: nat)
    requires Enabled(s, step) && QueueInv(s) && OnNetwork(s, id)
    ensures OnNetwork(Apply(s, step), id)
    ensures s.tasks[id].Fetching? && !(step.NetworkResult? && step.id == id) ==>
              Apply(s, step).tasks[id].Fetching? || Apply(s, step).tasks[id].Abandoned?
  {
  }

  lemma SendingStep(s: State, step: Step, id: nat)
    requires Enabled(s, step) && TaskOf(step) == Some(id) && SendsToNetwork(step)
    ensures var s' := Apply(s, step); id in s'.tasks && s'.tasks[id].Fetching?
  {
  }

  lemma LabelledStep(trace: seq<State>, steps: seq<Step>, n: nat)
    requires Labelled(trace, steps) && n < |steps|
    ensures Enabled(trace[n], steps[n]) && trace[n + 1] == Apply(trace[n], steps[n]) && QueueInv(trace[n])
  {
    LabelledIsRun(trace, steps);
    RunsKeepInv(trace, n);
  }

  lemma {:induction false} SentStaysSent(trace: seq<State>, steps: seq<Step>, k: nat, n: nat, id: nat)
    requires Labelled(trace, steps) && k < n <= |steps| && TaskOf(steps[k]) == Some(id) && SendsToNetwork(steps[k])
    ensures OnNetwork(trace[n], id)
    ensures (forall j | k < j < n :: !(steps[j].NetworkResult? && steps[j].id == id)) ==>
              trace[n].tasks[id].Fetching? || trace[n].tasks[id].Abandoned?
  {
    LabelledStep(trace, steps, n - 1);
    if k + 1 < n {
      SentStaysSent(trace, steps, k, n - 1, id);
      StaysOnNetwork(trace[n - 1], steps[n - 1], id);
    } else {
      SendingStep(trace[k], steps[k], id);
    }
  }

  /** A request that passed without being selected, or that the client let go on or said nothing about, is with the
      network: while its task lives and no result has come, any result may come in every idle state; and whatever it
      is answered is what the network gave. */
  lemma SentToNetwork(trace: seq<State>, steps: seq<Step>, k: nat, n: nat, id: nat, cause: Cause, at: nat)
    requires Labelled(trace, steps) && k < n <= |steps|
    requires steps[k] == PassThrough(id)
             || (steps[k].Decide? && steps[k].id == id && steps[k].verdict in {Continue, NoDecision})
    ensures (forall j | k < j < n :: !(steps[j].NetworkResult? && steps[j].id == id))
            && id in trace[n].tasks && trace[n].tasks[id] != Abandoned && Idle(trace[n])
            && (cause.Delivered? || cause.BodyUnreadable? || cause.TransportFailed?)
            ==> Enabled(trace[n], NetworkResult(id, cause, at))
    ensures forall r | r in trace[n].responses && r.id == id ::
              r.cause.Delivered? || r.cause.BodyUnreadable? || r.cause.TransportFailed?
  {
    SentStaysSent(trace, steps, k, n, id);
    LabelledIsRun(trace, steps);
    RunsKeepInv(trace, n);
  }

  lemma {:induction false} AskedByPause(trace: seq<State>, steps: seq<Step>, n: nat, id: nat) returns (j: nat)
    requires Labelled(trace, steps) && n <= |steps| && LastOf(steps[..n], id) == Some(Pause(id))
    ensures j < n && steps[j] == Pause(id)
  {
    assert steps[..n][..n - 1] == steps[..n - 1];
    if TaskOf(steps[n - 1]) == Some(id) {
      j := n - 1;
    } else {
      j := AskedByPause(trace, steps, n - 1, id);
    }
  }

  lemma {:induction false} OutcomeStep(trace: seq<State>, steps: seq<Step>, n: nat, id: nat, cause: Cause)
    returns (k: nat)
    requires Labelled(trace, steps) && n <= |steps| && HasOutcome(trace[n], id, cause)
    ensures k < n && Decides(steps[k], id, cause)
  {
    assert n > 0;
    assert trace[n - 1 + 1] == Apply(trace[n - 1], steps[n - 1]);
    StepDecides(trace[n - 1], steps[n - 1], id);
    if Decides(steps[n - 1], id, cause) {
      k := n - 1;
    } else {
      k := OutcomeStep(trace, steps, n - 1, id, cause);
    }
  }

  /** The client answers only what was paused for it: an answer it gave was decided by its own verdict, and before
      that the request was paused. */
  lemma ClientAnswersWerePaused(trace: seq<State>, steps: seq<Step>, n: nat, r: Response) returns (j: nat, k: nat)
    requires Labelled(trace, steps) && n <= |steps| && r in trace[n].responses
    requires r.cause.ClientFailed? || r.cause.ClientFulfilled?
    ensures j < k < n && steps[j] == Pause(r.id) && steps[k].Decide? && steps[k].id == r.id
    ensures steps[k].verdict == if r.cause.ClientFailed? then Fail else Fulfill(r.cause.code)
  {
    LabelledIsRun(trace, steps);
    RunsKeepInv(trace, n);
    k := OutcomeStep(trace, steps, n, r.id, r.cause);
    NextStepIff(trace, steps, k, steps[k], r.id);
    var last := LastOf(steps[..k], r.id);
    LastIsOwn(steps[..k], r.id);
    j := AskedByPause(trace, steps, k, r.id);
  }

  lemma {:induction false} LastIsOwn(steps: seq<Step>, id: nat)
    requires LastOf(steps, id).Some?
    ensures TaskOf(LastOf(steps, id).value) == Some(id)
  {
    if TaskOf(steps[|steps| - 1]) != Some(id) {
      LastIsOwn(steps[..|steps| - 1], id);
    }
  }

  // ---------- what each step leaves behind ----------

  /** An answer goes out with `SendAnswer` and nothing else: to that request, with what its settling step decided. */
  lemma AnswerOfStep(trace: seq<State>, steps: seq<Step>, k: nat)
    requires Labelled(trace, steps) && k < |steps|
    ensures if steps[k].SendAnswer? then
              exists cause :: trace[k + 1].responses == trace[k].responses + [Response(steps[k].id, cause)]
                              && LastOf(steps[..k], steps[k].id).Some?
                              && Decides(LastOf(steps[..k], steps[k].id).value, steps[k].id, cause)
            else trace[k + 1].responses == trace[k].responses
  {
    assert trace[k + 1] == Apply(trace[k], steps[k]);
    if steps[k].SendAnswer? {
      AllStand(trace, steps, k, steps[k].id);
      LastIsOwn(steps[..k], steps[k].id);
    }
  }

  /** The status the page sees, by what settled the request. */
  lemma StatusOfAnswer(step: Step, r: Response)
    requires Settles(step) && Decides(step, r.id, r.cause)
    ensures match step
            case RejectOffline(_, _) => r.Status() == 0
            case RejectUrl(_, _) => r.Status() == 400
            case Decide(_, verdict, _) => r.Status() == if verdict.Fulfill? then verdict.code else 0
            case NetworkResult(_, cause, _) =>
              r.Status() == if cause.Delivered? then cause.code else if cause.BodyUnreadable? then cause.code else 0
  {
  }

  /** What a step writes to the log: the record at the start; at the end no status for offline and transport failures,
      400 for a bad URL, the client's status, or what the network delivered, with headers, type and length only for a
      body that was read. */
  function Written(step: Step): seq<Op> {
    match step
    case StartTask(_, record) => [Start(record)]
    case RejectOffline(id, at) => [Finish(Oxi(id), Completion(None, [], "", None, at))]
    case RejectUrl(id, at) => [Finish(Oxi(id), Completion(Some(400), [], "", None, at))]
    case Decide(id, verdict, at) => (
      match verdict
      case Fail => [Finish(Oxi(id), Completion(Some(0), [], "", None, at))]
      case Fulfill(code) => [Finish(Oxi(id), Completion(Some(code), [], "", None, at))]
      case _ => [])
    case NetworkResult(id, cause, at) => (
      match cause
      case Delivered(code, headers, mime, length) =>
        [Finish(Oxi(id), Completion(Some(code), headers, mime, Some(length), at))]
      case BodyUnreadable(code, _) => [Finish(Oxi(id), Completion(Some(code), [], "", None, at))]
      case _ => [Finish(Oxi(id), Completion(None, [], "", None, at))])
    case SessionLogs(op) => [op]
    case _ => []
  }

  lemma LogOfStep(trace: seq<State>, steps: seq<Step>, k: nat)
    requires Labelled(trace, steps) && k < |steps|
    ensures trace[k + 1].logOps == trace[k].logOps + Written(steps[k])
  {
    assert Enabled(trace[k], steps[k]) && trace[k + 1] == Apply(trace[k], steps[k]);
    assert trace[k].logOps + [] == trace[k].logOps;
  }

  datatype Kind = Issued | Received | Spawned | Answered | Uncounted | Opened | Closed | Styled | Left

  predicate OfKind(step: Step, kind: Kind) {
    match kind
    case Issued => step.Issue?
    case Received => step.Dequeue?
    case Spawned => step.Spawn?
    case Answered => step.SendAnswer?
    case Uncounted => step.Decrement?
    case Opened => step.GuardNew?
    case Closed => step.GuardDrop?
    case Styled => step.StylesheetIncrement?
    case Left => step.Disconnect?
  }

  function Count(steps: seq<Step>, kind: Kind): nat {
    if steps == [] then 0
    else Count(steps[..|steps| - 1], kind) + if OfKind(steps[|steps| - 1], kind) then 1 else 0
  }

  lemma CountMore(steps: seq<Step>, step: Step)
    ensures forall kind :: Count(steps + [step], kind) == Count(steps, kind) + if OfKind(step, kind) then 1 else 0
  {
    assert (steps + [step])[..|steps|] == steps;
  }

  /** The books: requests issued and received, answers, guards, stylesheet increments and the counter, each the number
      of steps that move it. */
  ghost predicate Balanced(s: State, steps: seq<Step>) {
    && s.minted == Count(steps, Kind.Issued) && |s.dequeued| == Count(steps, Kind.Received)
    && |s.responses| == Count(steps, Kind.Answered)
    && (s.connected <==> Count(steps, Kind.Left) == 0)
    && CounterBalanced(s, steps)
  }

  ghost predicate CounterBalanced(s: State, steps: seq<Step>) {
    && s.guards == Count(steps, Kind.Opened) - Count(steps, Kind.Closed)
    && s.leaked == Count(steps, Kind.Styled)
    && s.counter == Count(steps, Kind.Spawned) - Count(steps, Kind.Uncounted)
                    + Count(steps, Kind.Opened) - Count(steps, Kind.Closed) + Count(steps, Kind.Styled)
  }

  lemma {:induction false} Books(trace: seq<State>, steps: seq<Step>, n: nat)
    requires Labelled(trace, steps) && n <= |steps|
    ensures Balanced(trace[n], steps[..n])
  {
    if n > 0 {
      Books(trace, steps, n - 1);
      var step := steps[n - 1];
      assert steps[..n] == steps[..n - 1] + [step] && trace[n - 1 + 1] == Apply(trace[n - 1], step);
      OneMoreStep(trace[n - 1], steps[..n - 1], step);
    }
  }

  lemma OneMoreStep(s: State, steps: seq<Step>, step: Step)
    requires Enabled(s, step) && Balanced(s, steps)
    ensures Balanced(Apply(s, step), steps + [step])
  {
    CountMore(steps, step);
    CounterMoved(s, steps, step);
  }

  lemma CounterMoved(s: State, steps: seq<Step>, step: Step)
    requires Enabled(s, step) && CounterBalanced(s, steps)
    ensures CounterBalanced(Apply(s, step), steps + [step])
  {
    CountMore(steps, step);
  }
}

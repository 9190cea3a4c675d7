/** Sessions sharing one context store, as interleaved steps: scripts send writes, sync threads apply them,
    navigations send a barrier, wait for its acknowledgement (or give up), and read the seed of the new page. */
module DrainBarrier {
  import opened Text
  import opened StorageSync

  datatype Navigation =
    | Parked
    | Waiting(origin: Origin, ticket: nat, mark: nat)      // `mark` messages were sent before the barrier
    | Cleared(origin: Origin, mark: nat, acked: bool)

  /** The seed read for a session: `sentAt` is how many messages the session had sent, and `at` how many messages
      the store had seen, when it was read. */
  datatype Seed<V> = Seed(
    session: nat, origin: Origin, bucket: Bucket<V>, mark: nat, acked: bool, sentAt: nat, at: nat)

  /** Who applied a message: a session's sync thread, or a direct write to the shared map. */
  type Applied<V> = (Option<nat>, Message<V>)

  datatype State<V> = State(
    store: Store<V>,
    sent: seq<seq<Message<V>>>,     // per session, everything sent on its channel
    queues: seq<seq<Message<V>>>,   // per session, not yet received
    applied: seq<Applied<V>>,       // in the order the store saw them
    acked: set<nat>,
    tickets: nat,
    navs: seq<Navigation>,
    seeds: seq<Seed<V>>)

  datatype Step<V> =
    | Write(i: nat, m: Message<V>)
    | Sync(i: nat)
    | Direct(m: Message<V>)
    | Begin(i: nat, o: Origin)
    | Acknowledged(i: nat)
    | GiveUp(i: nat)
    | ReadSeed(i: nat)

  ghost predicate IsInit<V>(s: State<V>) {
    && s.applied == [] && s.acked == {} && s.tickets == 0 && s.seeds == []
    && |s.sent| == |s.queues| == |s.navs|
    && forall i | 0 <= i < |s.sent| :: s.sent[i] == [] && s.queues[i] == [] && s.navs[i].Parked?
  }

  predicate Enabled<V>(s: State<V>, step: Step<V>) {
    |s.sent| == |s.queues| == |s.navs| &&
    match step
    case Write(i, m) => i < |s.sent| && !m.Drain?
    case Sync(i) => i < |s.sent| && s.queues[i] != []
    case Direct(m) => !m.Drain?
    case Begin(i, _) => i < |s.sent| && s.navs[i].Parked?
    case Acknowledged(i) => i < |s.sent| && s.navs[i].Waiting? && s.navs[i].ticket in s.acked
    case GiveUp(i) => i < |s.sent| && s.navs[i].Waiting?
    case ReadSeed(i) => i < |s.sent| && s.navs[i].Cleared?
  }

  function Send<V>(s: State<V>, i: nat, m: Message<V>): State<V>
    requires i < |s.sent| == |s.queues|
  {
    s.(sent := s.sent[i := s.sent[i] + [m]], queues := s.queues[i := s.queues[i] + [m]])
  }

  function Take<V>(s: State<V>, who: Option<nat>, m: Message<V>): State<V> {
    s.(store := ApplyMessage(s.store, m), applied := s.applied + [(who, m)],
       acked := if m.Drain? then s.acked + {m.ticket} else s.acked)
  }

  function NewSeed<V>(s: State<V>, i: nat): Seed<V>
    requires Enabled(s, ReadSeed(i))
  {
    var n := s.navs[i];
    Seed(i, n.origin, BucketOf(s.store, n.origin), n.mark, n.acked, |s.sent[i]|, |s.applied|)
  }

  function Apply<V>(s: State<V>, step: Step<V>): State<V>
    requires Enabled(s, step)
  {
    match step
    case Write(i, m) => Send(s, i, m)
    case Sync(i) => Take(s.(queues := s.queues[i := s.queues[i][1..]]), Some(i), s.queues[i][0])
    case Direct(m) => Take(s, None, m)
    case Begin(i, o) => Send(s, i, Drain(s.tickets)).(
                          tickets := s.tickets + 1,
                          navs := s.navs[i := Waiting(o, s.tickets, |s.sent[i]|)])
    case Acknowledged(i) => s.(navs := s.navs[i := Cleared(s.navs[i].origin, s.navs[i].mark, true)])
    case GiveUp(i) => s.(navs := s.navs[i := Cleared(s.navs[i].origin, s.navs[i].mark, false)])
    case ReadSeed(i) =>
      s.(navs := s.navs[i := Parked],
         seeds := s.seeds + [NewSeed(s, i)])
  }

  ghost predicate Next<V(!new)>(s: State<V>, s': State<V>) {
    exists step :: Enabled(s, step) && s' == Apply(s, step)
  }

  ghost predicate IsRun<V(!new)>(trace: seq<State<V>>) {
    |trace| > 0 && IsInit(trace[0]) && forall i | 0 <= i < |trace| - 1 :: Next(trace[i], trace[i + 1])
  }

  // ---------- what every step keeps ----------

  function Messages<V>(applied: seq<Applied<V>>): seq<Message<V>> {
    if applied == [] then [] else Messages(applied[..|applied| - 1]) + [applied[|applied| - 1].1]
  }

  /** What the sync thread of session `i` has applied, in order. */
  function By<V>(applied: seq<Applied<V>>, i: nat): seq<Message<V>> {
    if applied == [] then []
    else By(applied[..|applied| - 1], i)
         + (if applied[|applied| - 1].0 == Some(i) then [applied[|applied| - 1].1] else [])
  }

  lemma AppliedGrows<V>(applied: seq<Applied<V>>, a: Applied<V>, i: nat)
    ensures Messages(applied + [a]) == Messages(applied) + [a.1]
    ensures By(applied + [a], i) == By(applied, i) + (if a.0 == Some(i) then [a.1] else [])
  {
    assert (applied + [a])[..|applied|] == applied;
  }

  /** FIFO: what was applied for a session, followed by what is queued, is what was sent. */
  ghost predicate FifoInv<V>(s: State<V>) {
    && |s.sent| == |s.queues| == |s.navs|
    && forall i: nat | i < |s.sent| :: By(s.applied, i) + s.queues[i] == s.sent[i]
  }

  ghost predicate StoreInv<V>(start: Store<V>, s: State<V>) {
    s.store == ApplyAll(start, Messages(s.applied))
  }

  /** Tickets are sent at most once; an acknowledged one has been applied. */
  ghost predicate TicketInv<V>(s: State<V>) {
    && (forall i: nat, j: nat, p, q |
          i < |s.sent| && j < |s.sent| && 0 <= p < |s.sent[i]| && 0 <= q < |s.sent[j]|
          && s.sent[i][p].Drain? && s.sent[i][p] == s.sent[j][q] :: i == j && p == q)
    && (forall i: nat, p | i < |s.sent| && 0 <= p < |s.sent[i]| && s.sent[i][p].Drain? ::
          s.sent[i][p].ticket < s.tickets)
    && (forall t | t in s.acked :: exists i: nat, p ::
          i < |s.sent| && 0 <= p < |By(s.applied, i)| && By(s.applied, i)[p] == Drain(t))
  }

  ghost predicate NavInv<V>(s: State<V>) {
    && |s.sent| == |s.navs|
    && forall i: nat | i < |s.navs| ::
      match s.navs[i]
      case Parked => true
      case Waiting(_, t, mark) => mark < |s.sent[i]| && s.sent[i][mark] == Drain(t)
      case Cleared(_, mark, acked) =>
        mark < |s.sent[i]| && s.sent[i][mark].Drain? && (acked ==> mark < |By(s.applied, i)|)
  }

  /** A seed is the bucket left by a prefix of what the store ever saw. Of its own session that prefix holds a
      prefix of what was sent up to the read; after an acknowledgement it reaches past the barrier. */
  ghost predicate SeedRight<V>(start: Store<V>, s: State<V>, d: Seed<V>) {
    && d.session < |s.sent| && d.at <= |s.applied|
    && d.bucket == BucketOf(ApplyAll(start, Messages(s.applied[..d.at])), d.origin)
    && d.mark < d.sentAt <= |s.sent[d.session]| && s.sent[d.session][d.mark].Drain?
    && By(s.applied[..d.at], d.session) <= s.sent[d.session][..d.sentAt]
    && (d.acked ==> d.mark < |By(s.applied[..d.at], d.session)|)
  }

  ghost predicate Inv<V>(start: Store<V>, s: State<V>) {
    && FifoInv(s) && StoreInv(start, s) && TicketInv(s) && NavInv(s)
    && forall d | d in s.seeds :: SeedRight(start, s, d)
  }

  lemma FifoKept<V>(s: State<V>, step: Step<V>)
    requires Enabled(s, step) && FifoInv(s)
    ensures FifoInv(Apply(s, step))
  {
    var s' := Apply(s, step);
    forall i: nat | i < |s'.sent| ensures By(s'.applied, i) + s'.queues[i] == s'.sent[i] {
      if s'.applied != s.applied {
        AppliedGrows(s.applied, s'.applied[|s.applied|], i);
      }
    }
  }

  lemma OneMoreApplied<V>(start: Store<V>, applied: seq<Applied<V>>, a: Applied<V>)
    ensures ApplyAll(start, Messages(applied + [a])) == ApplyMessage(ApplyAll(start, Messages(applied)), a.1)
  {
    AppliedGrows(applied, a, 0);
    assert (Messages(applied) + [a.1])[..|Messages(applied)|] == Messages(applied);
  }

  lemma StoreKept<V>(start: Store<V>, s: State<V>, step: Step<V>)
    requires Enabled(s, step) && StoreInv(start, s)
    ensures StoreInv(start, Apply(s, step))
  {
    var s' := Apply(s, step);
    if s'.applied != s.applied {
      OneMoreApplied(start, s.applied, s'.applied[|s.applied|]);
    }
  }

  /** Sent and applied streams only ever grow at the end. */
  ghost predicate Grows<V>(s: State<V>, s': State<V>) {
    && |s'.sent| == |s.sent| && s.applied <= s'.applied
    && forall i: nat | i < |s.sent| :: s.sent[i] <= s'.sent[i] && By(s.applied, i) <= By(s'.applied, i)
  }

  lemma StepGrows<V>(s: State<V>, step: Step<V>)
    requires Enabled(s, step)
    ensures Grows(s, Apply(s, step))
  {
    var s' := Apply(s, step);
    forall i: nat | i < |s.sent| ensures By(s.applied, i) <= By(s'.applied, i) {
      if s'.applied != s.applied {
        AppliedGrows(s.applied, s'.applied[|s.applied|], i);
      }
    }
  }

  lemma TicketsSentKept<V>(s: State<V>, step: Step<V>)
    requires Enabled(s, step) && TicketInv(s)
    ensures var s' := Apply(s, step);
      && (forall i: nat, j: nat, p, q |
            i < |s'.sent| && j < |s'.sent| && 0 <= p < |s'.sent[i]| && 0 <= q < |s'.sent[j]|
            && s'.sent[i][p].Drain? && s'.sent[i][p] == s'.sent[j][q] :: i == j && p == q)
      && (forall i: nat, p | i < |s'.sent| && 0 <= p < |s'.sent[i]| && s'.sent[i][p].Drain? ::
            s'.sent[i][p].ticket < s'.tickets)
  {
  }

  lemma TicketKept<V>(s: State<V>, step: Step<V>)
    requires Enabled(s, step) && FifoInv(s) && TicketInv(s)
    ensures TicketInv(Apply(s, step))
  {
    var s' := Apply(s, step);
    TicketsSentKept(s, step);
    StepGrows(s, step);
    forall t | t in s'.acked
      ensures exists i: nat, p :: i < |s'.sent| && 0 <= p < |By(s'.applied, i)| && By(s'.applied, i)[p] == Drain(t)
    {
      if t in s.acked {
        var i: nat, p :| i < |s.sent| && 0 <= p < |By(s.applied, i)| && By(s.applied, i)[p] == Drain(t);
        assert By(s'.applied, i)[p] == Drain(t);
      } else {
        AppliedGrows(s.applied, s'.applied[|s.applied|], step.i);
        assert By(s'.applied, step.i)[|By(s.applied, step.i)|] == Drain(t);
      }
    }
  }

  lemma NavKept<V>(s: State<V>, step: Step<V>)
    requires Enabled(s, step) && FifoInv(s) && TicketInv(s) && NavInv(s)
    ensures NavInv(Apply(s, step))
  {
    StepGrows(s, step);
    if step.Acknowledged? {
      var i := step.i;
      var n := s.navs[i];
      var j: nat, p :| j < |s.sent| && 0 <= p < |By(s.applied, j)| && By(s.applied, j)[p] == Drain(n.ticket);
      assert s.sent[j][p] == Drain(n.ticket) == s.sent[i][n.mark];
    }
  }

  lemma SeedKept<V>(start: Store<V>, s: State<V>, s': State<V>, d: Seed<V>)
    requires Grows(s, s') && SeedRight(start, s, d)
    ensures SeedRight(start, s', d)
  {
    assert s'.applied[..d.at] == s.applied[..d.at];
    assert s'.sent[d.session][..d.sentAt] == s.sent[d.session][..d.sentAt];
  }

  lemma NewSeedRight<V>(start: Store<V>, s: State<V>, i: nat)
    requires Enabled(s, ReadSeed(i)) && FifoInv(s) && StoreInv(start, s) && NavInv(s)
    ensures SeedRight(start, Apply(s, ReadSeed(i)), NewSeed(s, i))
  {
    assert s.applied[..|s.applied|] == s.applied;
    assert By(s.applied, i) + s.queues[i] == s.sent[i];
  }

  lemma SeedsKept<V>(start: Store<V>, s: State<V>, step: Step<V>)
    requires Enabled(s, step) && Inv(start, s)
    ensures var s' := Apply(s, step); forall d | d in s'.seeds :: SeedRight(start, s', d)
  {
    var s' := Apply(s, step);
    StepGrows(s, step);
    forall d | d in s'.seeds ensures SeedRight(start, s', d) {
      if d in s.seeds {
        SeedKept(start, s, s', d);
      } else {
        NewSeedRight(start, s, step.i);
      }
    }
  }

  /** Seeds not there before were read later. */
  ghost predicate SeedsLater<V>(s: State<V>, s': State<V>) {
    forall d | d in s'.seeds && d !in s.seeds :: |s.applied| <= d.at
  }

  ghost predicate Follows<V>(start: Store<V>, s: State<V>, s': State<V>) {
    Inv(start, s') && Grows(s, s') && SeedsLater(s, s')
  }

  lemma StepFollows<V>(start: Store<V>, s: State<V>, step: Step<V>)
    requires Enabled(s, step) && Inv(start, s)
    ensures Follows(start, s, Apply(s, step))
  {
    FifoKept(s, step);
    StoreKept(start, s, step);
    TicketKept(s, step);
    NavKept(s, step);
    StepGrows(s, step);
    SeedsKept(start, s, step);
  }

  lemma NextFollows<V(!new)>(start: Store<V>, s: State<V>, s': State<V>)
    requires Inv(start, s) && Next(s, s')
    ensures Follows(start, s, s')
  {
    var step :| Enabled(s, step) && s' == Apply(s, step);
    StepFollows(start, s, step);
  }

  lemma {:induction false} RunsKeepInv<V(!new)>(trace: seq<State<V>>, i: nat)
    requires IsRun(trace) && i < |trace|
    ensures Inv(trace[0].store, trace[i])
  {
    if i > 0 {
      RunsKeepInv(trace, i - 1);
      assert Next(trace[i - 1], trace[i - 1 + 1]);
      NextFollows(trace[0].store, trace[i - 1], trace[i]);
    }
  }

  /** The barrier, for any number of sessions and any schedule: every seed ever read is the fold, origin by
      origin, of a prefix of what the store saw; when the acknowledgement arrived, that prefix contains all
      messages the session had sent before the barrier, in order. */
  lemma SeedsSeeEarlierWrites<V(!new)>(trace: seq<State<V>>, i: nat, d: Seed<V>)
    requires IsRun(trace) && i < |trace| && d in trace[i].seeds
    ensures SeedRight(trace[0].store, trace[i], d)
    ensures d.acked ==> trace[i].sent[d.session][..d.mark] <= By(trace[i].applied[..d.at], d.session)
    ensures d.bucket ==
            BucketOf(ApplyAll(trace[0].store, OfOrigin(Messages(trace[i].applied[..d.at]), d.origin)), d.origin)
  {
    RunsKeepInv(trace, i);
    OnlyOwnMessages(trace[0].store, Messages(trace[i].applied[..d.at]), d.origin);
  }

  // ---------- what a revisit sees ----------

  lemma {:induction false} MessagesAt<V>(applied: seq<Applied<V>>)
    ensures |Messages(applied)| == |applied|
    ensures forall m | 0 <= m < |applied| :: Messages(applied)[m] == applied[m].1
  {
    if applied != [] {
      MessagesAt(applied[..|applied| - 1]);
    }
  }

  /** The step at which the `w`-th message of a session was applied; its later ones come after it. */
  lemma {:induction false} WhenApplied<V>(applied: seq<Applied<V>>, i: nat, w: nat) returns (n: nat)
    requires w < |By(applied, i)|
    ensures n < |applied| && applied[n] == (Some(i), By(applied, i)[w]) && |By(applied[..n], i)| == w
    ensures forall m | n < m < |applied| && applied[m].0 == Some(i) ::
              exists q :: w < q < |By(applied, i)| && By(applied, i)[q] == applied[m].1
  {
    var init, last := applied[..|applied| - 1], applied[|applied| - 1];
    if w < |By(init, i)| {
      n := WhenApplied(init, i, w);
      assert applied[..n] == init[..n];
      forall m | n < m < |applied| && applied[m].0 == Some(i)
        ensures exists q :: w < q < |By(applied, i)| && By(applied, i)[q] == applied[m].1
      {
        if m < |init| {
          assert init[m] == applied[m];
          var q :| w < q < |By(init, i)| && By(init, i)[q] == init[m].1;
          assert By(applied, i)[q] == applied[m].1;
        } else {
          assert By(applied, i)[|By(init, i)|] == applied[m].1;
        }
      }
    } else {
      n := |applied| - 1;
    }
  }

  lemma LastAppliedWins<V>(start: Store<V>, seen: seq<Applied<V>>, n: nat, o: Origin, key: string)
    requires n < |seen| && seen[n].1.SetItem? && Touches(seen[n].1, o, key)
    requires forall m | n < m < |seen| :: !Touches(seen[m].1, o, key)
    ensures Lookup(ApplyAll(start, Messages(seen)), o, key) == Some(seen[n].1.value)
  {
    MessagesAt(seen);
    LastWriterWins(start, Messages(seen), o, key);
    assert LastTouch(Messages(seen), o, key) == n;
  }

  /** A revisit sees an earlier write, among any number of sessions. The write was applied at some step `n`; if
      the session sent nothing about the key between the write and the read, and nobody else changed the key
      between `n` and the read, the acknowledged seed holds it. */
  lemma RevisitSeesWrite<V(!new)>(trace: seq<State<V>>, i: nat, d: Seed<V>, w: nat, key: string) returns (n: nat)
    requires IsRun(trace) && i < |trace| && d in trace[i].seeds && d.acked
    requires d.session < |trace[i].sent| && w < d.mark < d.sentAt <= |trace[i].sent[d.session]|
    requires trace[i].sent[d.session][w].SetItem? && Touches(trace[i].sent[d.session][w], d.origin, key)
    requires forall q | w < q < d.sentAt :: !Touches(trace[i].sent[d.session][q], d.origin, key)
    ensures n < d.at <= |trace[i].applied|
    ensures trace[i].applied[n] == (Some(d.session), trace[i].sent[d.session][w])
    ensures |By(trace[i].applied[..n], d.session)| == w
    ensures (forall m | n < m < d.at && trace[i].applied[m].0 != Some(d.session) ::
               !Touches(trace[i].applied[m].1, d.origin, key))
            ==> key in d.bucket && d.bucket[key] == trace[i].sent[d.session][w].value
  {
    SeedsSeeEarlierWrites(trace, i, d);
    var seen := trace[i].applied[..d.at];
    n := WhenApplied(seen, d.session, w);
    assert seen[..n] == trace[i].applied[..n];
    if forall m | n < m < d.at && trace[i].applied[m].0 != Some(d.session) ::
         !Touches(trace[i].applied[m].1, d.origin, key)
    {
      assert forall m | n < m < |seen| :: seen[m] == trace[i].applied[m];
      LastAppliedWins(trace[0].store, seen, n, d.origin, key);
    }
  }

  // ---------- exactly which seeds a navigation can read ----------

  ghost predicate ReachesIn<V(!new)>(s: State<V>, s': State<V>, steps: nat)
    decreases steps
  {
    if steps == 0 then s' == s else exists mid :: ReachesIn(s, mid, steps - 1) && Next(mid, s')
  }

  ghost predicate Reaches<V(!new)>(s: State<V>, s': State<V>) {
    exists steps :: ReachesIn(s, s', steps)
  }

  ghost predicate Reachable<V(!new)>(s: State<V>) {
    exists s0 :: IsInit(s0) && Reaches(s0, s)
  }

  lemma ReachesSelf<V(!new)>(s: State<V>)
    ensures Reaches(s, s)
  {
    assert ReachesIn(s, s, 0);
  }

  lemma ReachesOn<V(!new)>(s: State<V>, s': State<V>, step: Step<V>)
    requires Reaches(s, s') && Enabled(s', step)
    ensures Reaches(s, Apply(s', step))
  {
    var steps: nat :| ReachesIn(s, s', steps);
    assert Next(s', Apply(s', step));
    assert ReachesIn(s, Apply(s', step), steps + 1);
  }

  lemma {:induction false} ReachingKeeps<V(!new)>(kept: State<V> -> bool, s: State<V>, s': State<V>, steps: nat)
    requires ReachesIn(s, s', steps) && kept(s)
    requires forall a, b {:trigger Next(a, b)} :: kept(a) && Next(a, b) ==> kept(b)
    ensures kept(s')
    decreases steps
  {
    if steps > 0 {
      var mid :| ReachesIn(s, mid, steps - 1) && Next(mid, s');
      ReachingKeeps(kept, s, mid, steps - 1);
    }
  }

  lemma FollowsOn<V(!new)>(start: Store<V>, s: State<V>, mid: State<V>, s': State<V>)
    requires Follows(start, s, mid) && Next(mid, s')
    ensures Follows(start, s, s')
  {
    NextFollows(start, mid, s');
  }

  lemma ReachingKeepsInv<V(!new)>(start: Store<V>, s: State<V>, s': State<V>)
    requires Inv(start, s) && Reaches(s, s')
    ensures Follows(start, s, s')
  {
    var steps: nat :| ReachesIn(s, s', steps);
    forall mid, next | Follows(start, s, mid) && Next(mid, next) ensures Follows(start, s, next) {
      FollowsOn(start, s, mid, next);
    }
    ReachingKeeps(mid => Follows(start, s, mid), s, s', steps);
  }

  lemma ReachableHasInv<V(!new)>(s: State<V>) returns (start: Store<V>)
    requires Reachable(s)
    ensures Inv(start, s)
  {
    var s0: State<V> :| IsInit(s0) && Reaches(s0, s);
    start := s0.store;
    ReachingKeepsInv(start, s0, s);
  }

  /** Nobody but session `i` changes the bucket of `o`. */
  ghost predicate Undisturbed<V>(applied: seq<Applied<V>>, i: nat, o: Origin) {
    forall a | a in applied :: a.0 == Some(i) || !Stamped(a.1, o)
  }

  /** `d` is the seed of the navigation that session `i` begins in `s`: `after` is what the session sent between
      the barrier and the read, and meanwhile nobody else changed the bucket of `o`. */
  ghost predicate SeedOf<V>(s: State<V>, s': State<V>, d: Seed<V>, i: nat, o: Origin, after: seq<Message<V>>) {
    && i < |s.sent| && |s'.sent| == |s.sent|
    && d in s'.seeds && d.session == i && d.origin == o
    && d.mark == |s.sent[i]| && d.sentAt == d.mark + 1 + |after| <= |s'.sent[i]|
    && s'.sent[i][d.mark + 1..d.sentAt] == after
    && |s.applied| <= d.at <= |s'.applied|
    && Undisturbed(s'.applied[|s.applied|..d.at], i, o)
  }

  ghost predicate CanSeed<V(!new)>(s: State<V>, i: nat, o: Origin, after: seq<Message<V>>, acked: bool,
                                   bucket: Bucket<V>)
  {
    exists s', d :: Reaches(s, s') && SeedOf(s, s', d, i, o, after) && d.acked == acked && d.bucket == bucket
  }

  lemma {:induction false} ApplyConcat<V>(store: Store<V>, one: seq<Message<V>>, two: seq<Message<V>>)
    ensures ApplyAll(store, one + two) == ApplyAll(ApplyAll(store, one), two)
  {
    if two == [] {
      assert one + two == one;
    } else {
      ApplyConcat(store, one, two[..|two| - 1]);
      assert (one + two)[..|one + two| - 1] == one + two[..|two| - 1];
    }
  }

  lemma {:induction false} AppliedConcat<V>(one: seq<Applied<V>>, two: seq<Applied<V>>, i: nat)
    ensures Messages(one + two) == Messages(one) + Messages(two)
    ensures By(one + two, i) == By(one, i) + By(two, i)
  {
    if two == [] {
      assert one + two == one;
    } else {
      AppliedConcat(one, two[..|two| - 1], i);
      assert (one + two)[..|one + two| - 1] == one + two[..|two| - 1];
    }
  }

  /** Messages of others stamped with other origins leave the fold of the session's own messages. */
  lemma {:induction false} UndisturbedFold<V>(store: Store<V>, applied: seq<Applied<V>>, i: nat, o: Origin)
    requires Undisturbed(applied, i, o)
    ensures SameBucket(ApplyAll(store, Messages(applied)), ApplyAll(store, By(applied, i)), o)
  {
    if applied != [] {
      var init, last := applied[..|applied| - 1], applied[|applied| - 1];
      assert forall a | a in init :: a in applied;
      UndisturbedFold(store, init, i, o);
      assert init + [last] == applied;
      OneMoreApplied(store, init, last);
      ActsOnOwnBucket(ApplyAll(store, Messages(init)), ApplyAll(store, By(init, i)), last.1, o);
      if last.0 == Some(i) {
        assert (By(init, i) + [last.1])[..|By(init, i)|] == By(init, i);
        ActsOnOther(ApplyAll(store, Messages(init)), ApplyAll(store, By(init, i)), last.1, o);
      } else {
        assert By(init, i) + [] == By(init, i);
      }
    }
  }

  lemma ActsOnOther<V>(one: Store<V>, two: Store<V>, m: Message<V>, o: Origin)
    requires SameBucket(one, two, o)
    ensures SameBucket(ApplyMessage(one, m), ApplyMessage(two, m), o)
  {
  }

  /** What session `i` has sent by the read, from what was still queued when it navigated. */
  function Stream<V>(s: State<V>, i: nat, after: seq<Message<V>>): seq<Message<V>>
    requires i < |s.queues|
  {
    s.queues[i] + [Drain(s.tickets)] + after
  }

  /** The bucket of `o` after the first `n` of these messages. */
  function Held<V>(store: Store<V>, ms: seq<Message<V>>, n: nat, o: Origin): Bucket<V>
    requires n <= |ms|
  {
    BucketOf(ApplyAll(store, ms[..n]), o)
  }

  lemma DrainsAlike<V>(store: Store<V>, one: seq<Message<V>>, m: Message<V>, m': Message<V>, two: seq<Message<V>>,
                       n: nat)
    requires m.Drain? && m'.Drain? && n <= |one| + 1 + |two|
    ensures ApplyAll(store, (one + [m] + two)[..n]) == ApplyAll(store, (one + [m'] + two)[..n])
  {
    if n <= |one| {
      assert (one + [m] + two)[..n] == one[..n] == (one + [m'] + two)[..n];
    } else {
      var k := n - |one| - 1;
      assert (one + [m] + two)[..n] == one + [m] + two[..k];
      assert (one + [m'] + two)[..n] == one + [m'] + two[..k];
      DrainIsNothing(store, one, m, two[..k]);
      DrainIsNothing(store, one, m', two[..k]);
    }
  }

  lemma DrainIsNothing<V>(store: Store<V>, one: seq<Message<V>>, m: Message<V>, two: seq<Message<V>>)
    requires m.Drain?
    ensures ApplyAll(store, one + [m] + two) == ApplyAll(store, one + two)
  {
    ApplyConcat(store, one + [m], two);
    ApplyConcat(store, one, [m]);
    ApplyConcat(store, one, two);
    assert [m][..0] == [];
  }

  lemma SeedBucket<V(!new)>(start: Store<V>, s: State<V>, s': State<V>, d: Seed<V>, i: nat, o: Origin)
    requires StoreInv(start, s) && Grows(s, s') && SeedRight(start, s', d) && d.origin == o && |s.applied| <= d.at
    requires Undisturbed(s'.applied[|s.applied|..d.at], i, o)
    ensures d.bucket == BucketOf(ApplyAll(s.store, By(s'.applied[|s.applied|..d.at], i)), o)
  {
    var rest := s'.applied[|s.applied|..d.at];
    assert s'.applied[..d.at] == s.applied + rest;
    AppliedConcat(s.applied, rest, i);
    ApplyConcat(start, Messages(s.applied), Messages(rest));
    UndisturbedFold(s.store, rest, i, o);
  }

  /** `head` and `queue` have been sent, then one more message and `after`; `head` and `rest` are a prefix. */
  lemma StreamTail<T>(sent: seq<T>, n: nat, head: seq<T>, rest: seq<T>, queue: seq<T>, after: seq<T>)
    requires head + queue <= sent && n == |head + queue| + 1 + |after| <= |sent|
    requires sent[|head + queue| + 1..n] == after && head + rest <= sent[..n]
    ensures rest <= queue + [sent[|head + queue|]] + after
  {
    var all := queue + [sent[|head + queue|]] + after;
    assert sent[..n] == head + all by {
      assert sent[..n] == sent[..|head + queue|] + [sent[|head + queue|]] + sent[|head + queue| + 1..n];
    }
    assert forall k | 0 <= k < |rest| :: rest[k] == (head + rest)[|head| + k] == (head + all)[|head| + k];
  }

  lemma SeedStream<V(!new)>(
      start: Store<V>, s: State<V>, s': State<V>, d: Seed<V>, i: nat, o: Origin, after: seq<Message<V>>)
    requires FifoInv(s) && Grows(s, s') && SeedRight(start, s', d) && SeedOf(s, s', d, i, o, after)
    ensures var seen := By(s'.applied[|s.applied|..d.at], i);
            && seen <= s.queues[i] + [s'.sent[i][d.mark]] + after
            && (d.acked ==> |s.queues[i]| < |seen|)
  {
    var rest := s'.applied[|s.applied|..d.at];
    assert s'.applied[..d.at] == s.applied + rest;
    AppliedConcat(s.applied, rest, i);
    StreamTail(s'.sent[i], d.sentAt, By(s.applied, i), By(rest, i), s.queues[i], after);
  }

  /** Every such seed folds a prefix of the session's stream, past the barrier when acknowledged. */
  lemma SeedFoldsPrefix<V(!new)>(s: State<V>, s': State<V>, d: Seed<V>, i: nat, o: Origin, after: seq<Message<V>>)
    returns (n: nat)
    requires Reachable(s) && i < |s.queues| && Reaches(s, s') && SeedOf(s, s', d, i, o, after)
    ensures n <= |Stream(s, i, after)| && (d.acked ==> |s.queues[i]| < n)
    ensures d.bucket == Held(s.store, Stream(s, i, after), n, o)
  {
    var start := ReachableHasInv(s);
    ReachingKeepsInv(start, s, s');
    assert SeedRight(start, s', d);
    SeedBucket(start, s, s', d, i, o);
    SeedStream(start, s, s', d, i, o, after);
    var seen := By(s'.applied[|s.applied|..d.at], i);
    n := |seen|;
    assert seen == (s.queues[i] + [s'.sent[i][d.mark]] + after)[..n];
    DrainsAlike(s.store, s.queues[i], s'.sent[i][d.mark], Drain(s.tickets), after, n);
  }

  // ---------- and every one of them is read on some schedule ----------

  ghost predicate Writes<V>(ms: seq<Message<V>>) {
    forall m | m in ms :: !m.Drain?
  }

  function SentMore<V>(s: State<V>, i: nat, ms: seq<Message<V>>): State<V>
    requires i < |s.sent| == |s.queues|
  {
    s.(sent := s.sent[i := s.sent[i] + ms], queues := s.queues[i := s.queues[i] + ms])
  }

  lemma {:induction false} WritesReach<V(!new)>(s: State<V>, s': State<V>, i: nat, ms: seq<Message<V>>)
    requires Reaches(s, s') && i < |s'.sent| == |s'.queues| == |s'.navs| && Writes(ms)
    ensures Reaches(s, SentMore(s', i, ms))
  {
    if ms == [] {
      assert s'.sent[i] + ms == s'.sent[i] && s'.queues[i] + ms == s'.queues[i];
      assert SentMore(s', i, ms) == s';
    } else {
      var init, last := ms[..|ms| - 1], ms[|ms| - 1];
      WritesReach(s, s', i, init);
      var mid := SentMore(s', i, init);
      ReachesOn(s, mid, Write(i, last));
      SentOneMore(s', i, init, last);
      assert ms == init + [last];
    }
  }

  lemma SentOneMore<V>(s: State<V>, i: nat, ms: seq<Message<V>>, m: Message<V>)
    requires i < |s.sent| == |s.queues| == |s.navs| && !m.Drain?
    ensures Apply(SentMore(s, i, ms), Write(i, m)) == SentMore(s, i, ms + [m])
  {
    assert s.sent[i] + (ms + [m]) == s.sent[i] + ms + [m] && s.queues[i] + (ms + [m]) == s.queues[i] + ms + [m];
    var mid := SentMore(s, i, ms);
    assert mid.sent[i := mid.sent[i] + [m]] == s.sent[i := s.sent[i] + (ms + [m])];
    assert mid.queues[i := mid.queues[i] + [m]] == s.queues[i := s.queues[i] + (ms + [m])];
  }

  /** The state after the sync thread of `i` has applied `n` more messages. */
  ghost predicate SyncedMore<V>(s: State<V>, s': State<V>, i: nat, n: nat) {
    && i < |s.queues| == |s'.queues| == |s'.sent| && n <= |s.queues[i]|
    && s'.sent == s.sent && s'.navs == s.navs && s'.seeds == s.seeds
    && s'.queues[i] == s.queues[i][n..]
    && s'.store == ApplyAll(s.store, s.queues[i][..n])
    && s.applied <= s'.applied && (forall a | a in s'.applied[|s.applied|..] :: a.0 == Some(i))
    && (forall k | 0 <= k < n && s.queues[i][k].Drain? :: s.queues[i][k].ticket in s'.acked)
  }

  lemma {:induction false} SyncsReach<V(!new)>(s: State<V>, s0: State<V>, i: nat, n: nat) returns (s': State<V>)
    requires Reaches(s, s0) && i < |s0.sent| == |s0.queues| == |s0.navs| && n <= |s0.queues[i]|
    ensures Reaches(s, s') && SyncedMore(s0, s', i, n)
  {
    if n == 0 {
      s' := s0;
    } else {
      var mid := SyncsReach(s, s0, i, n - 1);
      s' := Apply(mid, Sync(i));
      ReachesOn(s, mid, Sync(i));
      assert s0.queues[i][..n][..n - 1] == s0.queues[i][..n - 1];
      assert s'.applied[|s0.applied|..] == mid.applied[|s0.applied|..] + [(Some(i), s0.queues[i][n - 1])];
    }
  }

  /** The barrier and the later writes are sent, and the sync thread applies the first `n` messages of the stream. */
  lemma WaitPossible<V(!new)>(s: State<V>, i: nat, o: Origin, after: seq<Message<V>>, n: nat) returns (s3: State<V>)
    requires i < |s.sent| == |s.queues| == |s.navs| && s.navs[i].Parked? && Writes(after)
    requires n <= |Stream(s, i, after)|
    ensures Reaches(s, s3) && i < |s3.sent| == |s3.queues| == |s3.navs| == |s.sent|
    ensures s3.navs[i] == Waiting(o, s.tickets, |s.sent[i]|) && (|s.queues[i]| < n ==> s.tickets in s3.acked)
    ensures s3.sent[i] == s.sent[i] + [Drain(s.tickets)] + after
    ensures s3.store == ApplyAll(s.store, Stream(s, i, after)[..n])
    ensures s.applied <= s3.applied && forall a | a in s3.applied[|s.applied|..] :: a.0 == Some(i)
  {
    ReachesSelf(s);
    ReachesOn(s, s, Begin(i, o));
    var s1 := Apply(s, Begin(i, o));
    WritesReach(s, s1, i, after);
    var s2 := SentMore(s1, i, after);
    assert s2.queues[i] == Stream(s, i, after);
    s3 := SyncsReach(s, s2, i, n);
    assert s2.queues[i][|s.queues[i]|] == Drain(s.tickets);
    assert s2.sent[i] == s.sent[i] + [Drain(s.tickets)] + after;
  }

  /** Any prefix of the stream can be what a given-up wait reads; an acknowledged one, any prefix past the barrier. */
  lemma SeedPossible<V(!new)>(s: State<V>, i: nat, o: Origin, after: seq<Message<V>>, acked: bool, n: nat)
    requires i < |s.sent| == |s.queues| == |s.navs| && s.navs[i].Parked? && Writes(after)
    requires n <= |Stream(s, i, after)| && (acked ==> |s.queues[i]| < n)
    ensures CanSeed(s, i, o, after, acked, Held(s.store, Stream(s, i, after), n, o))
  {
    var s3 := WaitPossible(s, i, o, after, n);
    var leave := if acked then Acknowledged(i) else GiveUp(i);
    ReachesOn(s, s3, leave);
    var s4 := Apply(s3, leave);
    ReachesOn(s, s4, ReadSeed(i));
    var s5 := Apply(s4, ReadSeed(i));
    var d := NewSeed(s4, i);
    assert d == s5.seeds[|s5.seeds| - 1];
    assert SeedOf(s, s5, d, i, o, after);
  }

  /** The store once everything sent before the barrier has been applied. */
  function Before<V>(s: State<V>, i: nat): Store<V>
    requires i < |s.queues|
  {
    ApplyAll(s.store, s.queues[i])
  }

  lemma PastBarrier<V>(s: State<V>, i: nat, after: seq<Message<V>>, k: nat, o: Origin)
    requires i < |s.queues| && k <= |after|
    ensures Held(s.store, Stream(s, i, after), |s.queues[i]| + 1 + k, o) == Held(Before(s, i), after, k, o)
  {
    assert Stream(s, i, after)[..|s.queues[i]| + 1 + k] == s.queues[i] + [Drain(s.tickets)] + after[..k];
    DrainIsNothing(s.store, s.queues[i], Drain(s.tickets), after[..k]);
    ApplyConcat(s.store, s.queues[i], after[..k]);
  }

  lemma WithoutBarrier<V>(s: State<V>, i: nat, after: seq<Message<V>>, n: nat, o: Origin)
    requires i < |s.queues| && n <= |Stream(s, i, after)|
    ensures Held(s.store, Stream(s, i, after), n, o) ==
            Held(s.store, s.queues[i] + after, if n <= |s.queues[i]| then n else n - 1, o)
  {
    var q := |s.queues[i]|;
    if n <= q {
      assert Stream(s, i, after)[..n] == (s.queues[i] + after)[..n];
    } else {
      PastBarrier(s, i, after, n - q - 1, o);
      assert (s.queues[i] + after)[..n - 1] == s.queues[i] + after[..n - q - 1];
      ApplyConcat(s.store, s.queues[i], after[..n - q - 1]);
    }
  }

  ghost predicate CanNavigate<V(!new)>(s: State<V>, i: nat) {
    Reachable(s) && i < |s.sent| == |s.queues| == |s.navs| && s.navs[i].Parked?
  }

  lemma AcknowledgedIsPrefix<V(!new)>(s: State<V>, i: nat, o: Origin, after: seq<Message<V>>, bucket: Bucket<V>)
    returns (k: nat)
    requires Reachable(s) && i < |s.queues| && CanSeed(s, i, o, after, true, bucket)
    ensures k <= |after| && bucket == Held(Before(s, i), after, k, o)
  {
    var s', d :| Reaches(s, s') && SeedOf(s, s', d, i, o, after) && d.acked && d.bucket == bucket;
    var n := SeedFoldsPrefix(s, s', d, i, o, after);
    k := n - |s.queues[i]| - 1;
    PastBarrier(s, i, after, k, o);
  }

  lemma AcknowledgedPossible<V(!new)>(s: State<V>, i: nat, o: Origin, after: seq<Message<V>>, k: nat)
    requires CanNavigate(s, i) && Writes(after) && k <= |after|
    ensures CanSeed(s, i, o, after, true, Held(Before(s, i), after, k, o))
  {
    PastBarrier(s, i, after, k, o);
    SeedPossible(s, i, o, after, true, |s.queues[i]| + 1 + k);
  }

  /** The seeds a navigation can read, exactly: after an acknowledgement, everything sent before the barrier and
      any number of the writes sent after it. */
  lemma AcknowledgedSeeds<V(!new)>(s: State<V>, i: nat, o: Origin, after: seq<Message<V>>, bucket: Bucket<V>)
    requires CanNavigate(s, i) && Writes(after)
    ensures CanSeed(s, i, o, after, true, bucket) <==>
            exists k: nat :: k <= |after| && bucket == Held(Before(s, i), after, k, o)
  {
    if CanSeed(s, i, o, after, true, bucket) {
      var k := AcknowledgedIsPrefix(s, i, o, after, bucket);
    } else if exists k: nat :: k <= |after| && bucket == Held(Before(s, i), after, k, o) {
      var k: nat :| k <= |after| && bucket == Held(Before(s, i), after, k, o);
      AcknowledgedPossible(s, i, o, after, k);
    }
  }

  lemma GivenUpIsPrefix<V(!new)>(s: State<V>, i: nat, o: Origin, after: seq<Message<V>>, bucket: Bucket<V>)
    returns (p: nat)
    requires Reachable(s) && i < |s.queues| && CanSeed(s, i, o, after, false, bucket)
    ensures p <= |s.queues[i] + after| && bucket == Held(s.store, s.queues[i] + after, p, o)
  {
    var s', d :| Reaches(s, s') && SeedOf(s, s', d, i, o, after) && !d.acked && d.bucket == bucket;
    var n := SeedFoldsPrefix(s, s', d, i, o, after);
    p := if n <= |s.queues[i]| then n else n - 1;
    WithoutBarrier(s, i, after, n, o);
  }

  lemma GivenUpPossible<V(!new)>(s: State<V>, i: nat, o: Origin, after: seq<Message<V>>, p: nat)
    requires CanNavigate(s, i) && Writes(after) && p <= |s.queues[i] + after|
    ensures CanSeed(s, i, o, after, false, Held(s.store, s.queues[i] + after, p, o))
  {
    var n := if p <= |s.queues[i]| then p else p + 1;
    WithoutBarrier(s, i, after, n, o);
    SeedPossible(s, i, o, after, false, n);
  }

  /** When the wait was given up, any prefix at all of what was sent by the read. */
  lemma GivenUpSeeds<V(!new)>(s: State<V>, i: nat, o: Origin, after: seq<Message<V>>, bucket: Bucket<V>)
    requires CanNavigate(s, i) && Writes(after)
    ensures CanSeed(s, i, o, after, false, bucket) <==>
            exists p: nat :: p <= |s.queues[i] + after| && bucket == Held(s.store, s.queues[i] + after, p, o)
  {
    if CanSeed(s, i, o, after, false, bucket) {
      var p := GivenUpIsPrefix(s, i, o, after, bucket);
    } else if exists p: nat :: p <= |s.queues[i] + after| && bucket == Held(s.store, s.queues[i] + after, p, o) {
      var p: nat :| p <= |s.queues[i] + after| && bucket == Held(s.store, s.queues[i] + after, p, o);
      GivenUpPossible(s, i, o, after, p);
    }
  }

  // ---------- when the seed is exactly what was sent before the barrier ----------

  /** The message leaves this bucket of `o` as it is. */
  predicate Leaves<V(==)>(m: Message<V>, o: Origin, bucket: Bucket<V>) {
    !Stamped(m, o) ||
    match m
    case SetItem(_, key, value) => key in bucket && bucket[key] == value
    case RemoveItem(_, key) => key !in bucket
    case Clear(_) => bucket == map[]
    case Drain(_) => true
  }

  lemma LeavesIff<V>(store: Store<V>, m: Message<V>, o: Origin)
    ensures BucketOf(ApplyMessage(store, m), o) == BucketOf(store, o) <==> Leaves(m, o, BucketOf(store, o))
  {
    var was := BucketOf(store, o);
    if Stamped(m, o) && m.SetItem? {
      assert was[m.key := m.value][m.key] == m.value;
      if Leaves(m, o, was) {
        assert was[m.key := m.value] == was;
      }
    } else if Stamped(m, o) && m.RemoveItem? {
      assert m.key !in was - {m.key};
      if m.key !in was {
        assert was - {m.key} == was;
      }
    }
  }

  lemma {:induction false} ChangedByNone<V>(store: Store<V>, ms: seq<Message<V>>, n: nat, o: Origin)
    requires n <= |ms| && forall m | m in ms :: Leaves(m, o, BucketOf(store, o))
    ensures Held(store, ms, n, o) == BucketOf(store, o)
  {
    if n > 0 {
      ChangedByNone(store, ms, n - 1, o);
      LeavesIff(ApplyAll(store, ms[..n - 1]), ms[n - 1], o);
      assert ms[..n][..n - 1] == ms[..n - 1];
    }
  }

  lemma UnchangedMeansNone<V>(store: Store<V>, ms: seq<Message<V>>, n: nat, o: Origin)
    requires n < |ms| && Held(store, ms, n, o) == Held(store, ms, n + 1, o) == BucketOf(store, o)
    ensures Leaves(ms[n], o, BucketOf(store, o))
  {
    LeavesIff(ApplyAll(store, ms[..n]), ms[n], o);
    assert ms[..n + 1][..n] == ms[..n];
  }

  /** All prefixes of `ms` give the same bucket if and only if no message of `ms` changes it. */
  lemma PrefixesLeave<V>(store: Store<V>, ms: seq<Message<V>>, o: Origin)
    ensures (forall k: nat | k <= |ms| :: Held(store, ms, k, o) == BucketOf(store, o)) <==>
            (forall m | m in ms :: Leaves(m, o, BucketOf(store, o)))
  {
    if forall m | m in ms :: Leaves(m, o, BucketOf(store, o)) {
      forall k: nat | k <= |ms| ensures Held(store, ms, k, o) == BucketOf(store, o) {
        ChangedByNone(store, ms, k, o);
      }
    }
    if forall k: nat | k <= |ms| :: Held(store, ms, k, o) == BucketOf(store, o) {
      forall n: nat | n < |ms| ensures Leaves(ms[n], o, BucketOf(store, o)) {
        UnchangedMeansNone(store, ms, n, o);
      }
    }
  }

  ghost predicate EverySeed<V(!new)>(
      s: State<V>, i: nat, o: Origin, after: seq<Message<V>>, acked: bool, exact: Bucket<V>)
  {
    forall bucket :: CanSeed(s, i, o, after, acked, bucket) ==> bucket == exact
  }

  /** Every acknowledged seed is exactly the fold of what was sent before the barrier, if and only if no message
      sent between the barrier and the read changes the bucket that fold left. */
  lemma SeedIsExact<V(!new)>(s: State<V>, i: nat, o: Origin, after: seq<Message<V>>)
    requires CanNavigate(s, i) && Writes(after)
    ensures EverySeed(s, i, o, after, true, BucketOf(Before(s, i), o)) <==>
            forall m | m in after :: Leaves(m, o, BucketOf(Before(s, i), o))
  {
    PrefixesLeave(Before(s, i), after, o);
    forall k: nat | k <= |after| ensures CanSeed(s, i, o, after, true, Held(Before(s, i), after, k, o)) {
      AcknowledgedPossible(s, i, o, after, k);
    }
    forall bucket | CanSeed(s, i, o, after, true, bucket)
      ensures exists k: nat :: k <= |after| && bucket == Held(Before(s, i), after, k, o)
    {
      AcknowledgedSeeds(s, i, o, after, bucket);
    }
  }

  /** The same for a wait that was given up: no message still queued or sent later may change the bucket. */
  lemma GivenUpSeedIsExact<V(!new)>(s: State<V>, i: nat, o: Origin, after: seq<Message<V>>)
    requires CanNavigate(s, i) && Writes(after)
    ensures EverySeed(s, i, o, after, false, BucketOf(Before(s, i), o)) <==>
            forall m | m in s.queues[i] + after :: Leaves(m, o, BucketOf(s.store, o))
  {
    var ms, q := s.queues[i] + after, |s.queues[i]|;
    PrefixesLeave(s.store, ms, o);
    assert ms[..q] == s.queues[i] && ms[..0] == [];
    assert Held(s.store, ms, q, o) == BucketOf(Before(s, i), o) && Held(s.store, ms, 0, o) == BucketOf(s.store, o);
    forall p: nat | p <= |ms| ensures CanSeed(s, i, o, after, false, Held(s.store, ms, p, o)) {
      GivenUpPossible(s, i, o, after, p);
    }
    forall bucket | CanSeed(s, i, o, after, false, bucket)
      ensures exists p: nat :: p <= |ms| && bucket == Held(s.store, ms, p, o)
    {
      GivenUpSeeds(s, i, o, after, bucket);
    }
  }

  lemma {:induction false} SameBucketAfter<V>(one: Store<V>, two: Store<V>, ms: seq<Message<V>>, o: Origin)
    requires SameBucket(one, two, o)
    ensures SameBucket(ApplyAll(one, ms), ApplyAll(two, ms), o)
  {
    if ms != [] {
      SameBucketAfter(one, two, ms[..|ms| - 1], o);
      ActsOnOther(ApplyAll(one, ms[..|ms| - 1]), ApplyAll(two, ms[..|ms| - 1]), ms[|ms| - 1], o);
    }
  }

  /** Where nobody else has ever changed the bucket, what the barrier waits for is all the session has sent. */
  lemma BeforeIsAllSent<V(!new)>(trace: seq<State<V>>, n: nat, i: nat, o: Origin)
    requires IsRun(trace) && n < |trace| && i < |trace[n].queues| == |trace[n].sent|
    requires Undisturbed(trace[n].applied, i, o)
    ensures BucketOf(Before(trace[n], i), o) == BucketOf(ApplyAll(trace[0].store, trace[n].sent[i]), o)
  {
    RunsKeepInv(trace, n);
    var s, own := trace[n], By(trace[n].applied, i);
    UndisturbedFold(trace[0].store, s.applied, i, o);
    SameBucketAfter(s.store, ApplyAll(trace[0].store, own), s.queues[i], o);
    ApplyConcat(trace[0].store, own, s.queues[i]);
  }

  /** Where nobody else changed the origin before the read: the seed folds what the session had sent, up to some `p`,
      past the barrier when the acknowledgement arrived. */
  lemma UndisturbedSeed<V(!new)>(trace: seq<State<V>>, i: nat, d: Seed<V>) returns (p: nat)
    requires IsRun(trace) && i < |trace| && d in trace[i].seeds && d.at <= |trace[i].applied|
    requires Undisturbed(trace[i].applied[..d.at], d.session, d.origin)
    ensures d.session < |trace[i].sent| && p <= d.sentAt <= |trace[i].sent[d.session]| && (d.acked ==> d.mark < p)
    ensures d.bucket == BucketOf(ApplyAll(trace[0].store, trace[i].sent[d.session][..p]), d.origin)
  {
    SeedsSeeEarlierWrites(trace, i, d);
    var s := trace[i];
    var seen := By(s.applied[..d.at], d.session);
    p := |seen|;
    UndisturbedFold(trace[0].store, s.applied[..d.at], d.session, d.origin);
    assert seen == s.sent[d.session][..d.sentAt][..p] == s.sent[d.session][..p];
  }

  // ---------- the two ways a seed differs from the fold of what came before its barrier ----------

  function OneSession(): State<string> { State(map[], [[]], [[]], [], {}, 0, [Parked], []) }

  lemma RunOf(steps: seq<Step<string>>, trace: seq<State<string>>)
    requires |trace| == |steps| + 1 && trace[0] == OneSession()
    requires forall i | 0 <= i < |steps| :: Enabled(trace[i], steps[i]) && trace[i + 1] == Apply(trace[i], steps[i])
    ensures IsRun(trace)
  {
    forall i | 0 <= i < |trace| - 1 ensures Next(trace[i], trace[i + 1]) {
      assert Enabled(trace[i], steps[i]);
    }
  }

  /** A write sent after the barrier can be applied before the seed is read. */
  lemma LateWriteSlipsIn() returns (trace: seq<State<string>>, d: Seed<string>)
    ensures IsRun(trace) && d in trace[|trace| - 1].seeds && d.acked && d.mark == 0
    ensures d.bucket == map["k" := "v"]
  {
    var write := SetItem("o", "k", "v");
    var s0 := OneSession();
    var s1 := Apply(s0, Begin(0, "o"));
    var s2 := Apply(s1, Write(0, write));
    var s3 := Apply(s2, Sync(0));
    var s4 := Apply(s3, Acknowledged(0));
    var s5 := Apply(s4, Sync(0));
    var s6 := Apply(s5, ReadSeed(0));
    trace := [s0, s1, s2, s3, s4, s5, s6];
    RunOf([Begin(0, "o"), Write(0, write), Sync(0), Acknowledged(0), Sync(0), ReadSeed(0)], trace);
    d := s6.seeds[0];
  }

  /** When the wait is given up, the seed can miss a write sent before the barrier. */
  lemma GivingUpMissesWrites() returns (trace: seq<State<string>>, d: Seed<string>)
    ensures IsRun(trace) && d in trace[|trace| - 1].seeds && !d.acked && d.mark == 1
    ensures trace[|trace| - 1].sent == [[SetItem("o", "k", "v"), Drain(0)]] && d.bucket == map[]
  {
    var write := SetItem("o", "k", "v");
    var s0 := OneSession();
    var s1 := Apply(s0, Write(0, write));
    var s2 := Apply(s1, Begin(0, "o"));
    assert s2.sent[0] == [write, Drain(0)] && |s2.sent| == 1;
    var s3 := Apply(s2, GiveUp(0));
    var s4 := Apply(s3, ReadSeed(0));
    trace := [s0, s1, s2, s3, s4];
    RunOf([Write(0, write), Begin(0, "o"), GiveUp(0), ReadSeed(0)], trace);
    d := s4.seeds[0];
  }
}

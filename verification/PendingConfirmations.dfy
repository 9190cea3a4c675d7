/** The broker's table of pending confirmations: purged lazily in the code, eagerly in the specification. */
module PendingConfirmations {
  import opened Text

  /** The stored request (its payload is opaque here) and its hard deadline. */
  datatype Pending = Pending(requestId: nat, payload: string, expiresAt: nat)

  predicate Expired(p: Pending, now: nat) { now >= p.expiresAt }

  type Table = map<nat, Pending>

  /** The entries still alive. */
  function Alive(t: Table, now: nat): Table {
    map id | id in t && !Expired(t[id], now) :: t[id]
  }

  datatype Op =
    | Register(payload: string)
    | Take(id: nat)
    | Remove(id: nat)
    | LiveCount

  datatype Answer = Registered(id: nat) | Taken(p: Option<Pending>) | Removed | Count(n: nat)

  // ---------- the specification: entries vanish the moment they expire ----------

  /** Every entry in the table is alive, whenever one looks. */
  datatype Eager = Eager(table: Table, next: nat)

  function EagerStep(e: Eager, op: Op, ttl: nat, now: nat): (Eager, Answer) {
    var t := Alive(e.table, now);
    match op
    case Register(payload) =>
      (Eager(Alive(t[e.next := Pending(e.next, payload, now + ttl)], now), e.next + 1), Registered(e.next))
    case Take(id) => (Eager(t - {id}, e.next), Taken(if id in t then Some(t[id]) else None))
    case Remove(id) => (Eager(t - {id}, e.next), Removed)
    case LiveCount => (Eager(t, e.next), Count(|t|))
  }

  // ---------- the code ----------

  class CredentialBroker {
    var pending: Table
    var counter: nat
    const confirmationTtl: nat

    constructor (ttl: nat)
      ensures pending == map[] && counter == 1 && confirmationTtl == ttl
    {
      pending := map[];
      counter := 1;
      confirmationTtl := ttl;
    }

    /** Entries sit under their own id and below the id counter. */
    ghost predicate Valid()
      reads this
    {
      forall id | id in pending :: pending[id].requestId == id < counter
    }

    /** The eager table this lazy one stands for. */
    ghost function Meaning(now: nat): Eager
      reads this
    {
      Eager(Alive(pending, now), counter)
    }

    method RegisterPending(payload: string, now: nat) returns (id: nat)
      requires Valid()
      modifies this
      ensures Valid()
      ensures (pending, counter, Registered(id))
           == LazyStep(old(pending), old(counter), Register(payload), confirmationTtl, now)
      ensures (Meaning(now), Registered(id)) == EagerStep(old(Meaning(now)), Register(payload), confirmationTtl, now)
      ensures id == old(counter) < counter
    {
      StepRefines(pending, counter, Register(payload), confirmationTtl, now);
      id := counter;
      counter := counter + 1;
      pending := pending[id := Pending(id, payload, now + confirmationTtl)];
    }

    method RetainAlive(now: nat)
      requires Valid()
      modifies this`pending
      ensures Valid() && pending == Alive(old(pending), now)
    {
      pending := map id | id in pending && !Expired(pending[id], now) :: pending[id];
    }

    method Take(id: nat, now: nat) returns (taken: Option<Pending>)
      requires Valid()
      modifies this
      ensures Valid()
      ensures (pending, counter, Taken(taken))
           == LazyStep(old(pending), old(counter), Op.Take(id), confirmationTtl, now)
      ensures (Meaning(now), Taken(taken)) == EagerStep(old(Meaning(now)), Op.Take(id), confirmationTtl, now)
      ensures id !in pending
    {
      StepRefines(pending, counter, Op.Take(id), confirmationTtl, now);
      var found := if id in pending then Some(pending[id]) else None;
      pending := pending - {id};
      if found.Some? && !Expired(found.value, now) {
        taken := found;
      } else {
        RetainAlive(now);
        taken := None;
      }
    }

    method Remove(id: nat, now: nat)
      requires Valid()
      modifies this
      ensures Valid()
      ensures (pending, counter, Removed) == LazyStep(old(pending), old(counter), Op.Remove(id), confirmationTtl, now)
      ensures (Meaning(now), Removed) == EagerStep(old(Meaning(now)), Op.Remove(id), confirmationTtl, now)
    {
      StepRefines(pending, counter, Op.Remove(id), confirmationTtl, now);
      pending := pending - {id};
    }

    method LivePendingCount(now: nat) returns (n: nat)
      requires Valid()
      modifies this
      ensures Valid()
      ensures (pending, counter, Count(n)) == LazyStep(old(pending), old(counter), LiveCount, confirmationTtl, now)
      ensures (Meaning(now), Count(n)) == EagerStep(old(Meaning(now)), LiveCount, confirmationTtl, now)
    {
      StepRefines(pending, counter, LiveCount, confirmationTtl, now);
      RetainAlive(now);
      n := |pending|;
    }
  }

  // ---------- whole runs ----------

  /** The lazy operations as a function of the stored table, as the methods perform them. */
  function LazyStep(t: Table, next: nat, op: Op, ttl: nat, now: nat): (Table, nat, Answer) {
    match op
    case Register(payload) => (t[next := Pending(next, payload, now + ttl)], next + 1, Registered(next))
    case Take(id) =>
      if id in t && !Expired(t[id], now) then (t - {id}, next, Taken(Some(t[id])))
      else (Alive(t - {id}, now), next, Taken(None))
    case Remove(id) => (t - {id}, next, Removed)
    case LiveCount => (Alive(t, now), next, Count(|Alive(t, now)|))
  }

  datatype Timed = Timed(op: Op, at: nat)

  ghost predicate Monotone(ops: seq<Timed>) {
    forall i, j | 0 <= i < j < |ops| :: ops[i].at <= ops[j].at
  }

  function LazyRun(ops: seq<Timed>, ttl: nat): (Table, nat, seq<Answer>) {
    if ops == [] then (map[], 1, [])
    else
      var (t, next, answers) := LazyRun(ops[..|ops| - 1], ttl);
      var last := ops[|ops| - 1];
      var (t', next', a) := LazyStep(t, next, last.op, ttl, last.at);
      (t', next', answers + [a])
  }

  function EagerRun(ops: seq<Timed>, ttl: nat): (Eager, seq<Answer>) {
    if ops == [] then (Eager(map[], 1), [])
    else
      var (e, answers) := EagerRun(ops[..|ops| - 1], ttl);
      var last := ops[|ops| - 1];
      var (e', a) := EagerStep(e, last.op, ttl, last.at);
      (e', answers + [a])
  }

  lemma AliveTwice(t: Table, early: nat, late: nat)
    requires early <= late
    ensures Alive(Alive(t, early), late) == Alive(t, late)
  {
  }

  lemma StepRefines(t: Table, next: nat, op: Op, ttl: nat, now: nat)
    ensures var (t', next', a) := LazyStep(t, next, op, ttl, now);
            (Eager(Alive(t', now), next'), a) == EagerStep(Eager(Alive(t, now), next), op, ttl, now)
  {
    var (t', next', a) := LazyStep(t, next, op, ttl, now);
    var (e', b) := EagerStep(Eager(Alive(t, now), next), op, ttl, now);
    AliveTwice(t, now, now);
    assert Alive(t', now) == e'.table;
  }

  /** Expiring eagerly at an earlier time makes no difference later. */
  lemma EagerStepForgets(e: Eager, early: nat, op: Op, ttl: nat, now: nat)
    requires early <= now
    ensures EagerStep(Eager(Alive(e.table, early), e.next), op, ttl, now) == EagerStep(e, op, ttl, now)
  {
    AliveTwice(e.table, early, now);
  }

  /** Under a nondecreasing clock, purging lazily gives every answer that purging at once would give. */
  lemma {:induction false} LazyRefinesEager(ops: seq<Timed>, ttl: nat)
    requires Monotone(ops)
    ensures LazyRun(ops, ttl).2 == EagerRun(ops, ttl).1
    ensures ops != [] ==> var now := ops[|ops| - 1].at;
            Eager(Alive(LazyRun(ops, ttl).0, now), LazyRun(ops, ttl).1) == EagerRun(ops, ttl).0
  {
    if ops != [] {
      var init, last := ops[..|ops| - 1], ops[|ops| - 1];
      LazyRefinesEager(init, ttl);
      var (t, next, _) := LazyRun(init, ttl);
      StepRefines(t, next, last.op, ttl, last.at);
      if init != [] {
        var before := init[|init| - 1].at;
        assert ops[|ops| - 2].at == before;
        EagerStepForgets(Eager(t, next), before, last.op, ttl, last.at);
        EagerStepForgets(Eager(t, next), last.at, last.op, ttl, last.at);
      }
    }
  }

  // ---------- what a take returns, without any table ----------

  function NextId(ops: seq<Timed>): nat {
    if ops == [] then 1 else NextId(ops[..|ops| - 1]) + if ops[|ops| - 1].op.Register? then 1 else 0
  }

  /** The `j`-th operation registered this id. */
  ghost predicate RegisteredBy(ops: seq<Timed>, j: nat, id: nat) {
    j < |ops| && ops[j].op.Register? && NextId(ops[..j]) == id
  }

  predicate Ends(op: Op, id: nat) { op == Take(id) || op == Remove(id) }

  /** The `j`-th operation registered this id, and nothing has taken or removed it since. */
  ghost predicate Outstanding(ops: seq<Timed>, j: nat, id: nat) {
    RegisteredBy(ops, j, id) && forall k | j < k < |ops| :: !Ends(ops[k].op, id)
  }

  lemma {:induction false} IdsIncrease(ops: seq<Timed>, i: nat, j: nat)
    requires i <= j <= |ops|
    ensures NextId(ops[..i]) <= NextId(ops[..j])
    ensures i < j && ops[i].op.Register? ==> NextId(ops[..i]) < NextId(ops[..j])
    decreases j
  {
    if i < j {
      IdsIncrease(ops, i, j - 1);
      assert ops[..j][..j - 1] == ops[..j - 1];
    }
  }

  /** No two registrations share an id. */
  lemma IdsNeverRepeat(ops: seq<Timed>, i: nat, j: nat, id: nat)
    requires RegisteredBy(ops, i, id) && RegisteredBy(ops, j, id)
    ensures i == j
  {
    if i < j {
      IdsIncrease(ops, i, j);
    } else if j < i {
      IdsIncrease(ops, j, i);
    }
  }

  /** Where the id was registered, if it is still outstanding, else -1. */
  function Holder(ops: seq<Timed>, id: nat): (j: int)
    ensures -1 <= j < |ops|
    ensures j >= 0 ==> ops[j].op.Register? && NextId(ops[..j]) == id
    ensures j >= 0 ==> forall k | j < k < |ops| :: !Ends(ops[k].op, id)
  {
    if ops == [] then -1
    else
      var init, last := ops[..|ops| - 1], ops[|ops| - 1];
      if last.op.Register? && NextId(init) == id then |init|
      else if Ends(last.op, id) then -1
      else
        var j := Holder(init, id);
        assert j >= 0 ==> ops[..j] == init[..j];
        j
  }

  /** The holder is the only outstanding registration. */
  lemma {:induction false} HolderIsOutstanding(ops: seq<Timed>, id: nat, j: nat)
    ensures Outstanding(ops, j, id) <==> j == Holder(ops, id)
    decreases |ops|
  {
    if ops != [] && j < |ops| {
      var init, last := ops[..|ops| - 1], ops[|ops| - 1];
      if j < |init| {
        HolderIsOutstanding(init, id, j);
        assert init[..j] == ops[..j];
        IdsIncrease(ops, j, |init|);
      }
    }
  }

  lemma StepOnEntry(t: Table, next: nat, op: Op, ttl: nat, now: nat, id: nat)
    ensures var (t', next', _) := LazyStep(t, next, op, ttl, now);
            && next' == next + (if op.Register? then 1 else 0)
            && (op.Register? && id == next ==> id in t' && t'[id] == Pending(id, op.payload, now + ttl))
            && (Ends(op, id) ==> id !in t')
            && (!Ends(op, id) && !(op.Register? && id == next) ==>
                  && (id in t' ==> id in t && t'[id] == t[id])
                  && (id in t && !Expired(t[id], now) ==> id in t'))
  {
  }

  /** The stored table, entry by entry: what is not outstanding is gone; what is outstanding is as registered, and
      still there while its deadline is ahead. */
  lemma {:induction false} TableMeaning(ops: seq<Timed>, ttl: nat, id: nat, now: nat)
    requires Monotone(ops) && (ops != [] ==> ops[|ops| - 1].at <= now)
    ensures var (t, next, _) := LazyRun(ops, ttl);
            var j := Holder(ops, id);
            && next == NextId(ops)
            && (id in t ==> j >= 0 && t[id] == Pending(id, ops[j].op.payload, ops[j].at + ttl))
            && (j >= 0 && now < ops[j].at + ttl ==> id in t)
  {
    if ops != [] {
      var init, last := ops[..|ops| - 1], ops[|ops| - 1];
      if init != [] {
        assert ops[|ops| - 2] == init[|init| - 1];
      }
      TableMeaning(init, ttl, id, now);
      var (t, next, _) := LazyRun(init, ttl);
      StepOnEntry(t, next, last.op, ttl, last.at, id);
    }
  }

  /** The answer of the `i`-th operation of a run. */
  function AnswerAt(ops: seq<Timed>, ttl: nat, i: nat): Answer
    requires i < |ops|
  {
    var (t, next, _) := LazyRun(ops[..i], ttl);
    LazyStep(t, next, ops[i].op, ttl, ops[i].at).2
  }

  /** A take succeeds if and only if its id was registered, has not been taken or removed since, and the deadline
      is still ahead; it returns what was registered. */
  lemma TakeMeaning(ops: seq<Timed>, ttl: nat, i: nat, id: nat)
    requires Monotone(ops) && i < |ops| && ops[i].op == Take(id)
    ensures AnswerAt(ops, ttl, i).Taken?
    ensures AnswerAt(ops, ttl, i).p.Some?
       <==> exists j: nat :: Outstanding(ops[..i], j, id) && ops[i].at < ops[..i][j].at + ttl
    ensures forall j: nat | Outstanding(ops[..i], j, id) && AnswerAt(ops, ttl, i).p.Some? ::
              AnswerAt(ops, ttl, i).p.value == Pending(id, ops[..i][j].op.payload, ops[..i][j].at + ttl)
  {
    TableMeaning(ops[..i], ttl, id, ops[i].at);
    forall j: nat { HolderIsOutstanding(ops[..i], id, j); }
    var j := Holder(ops[..i], id);
    if j >= 0 {
      assert Outstanding(ops[..i], j, id);
    }
  }

  /** One registration yields at most one result. */
  lemma TakenAtMostOnce(ops: seq<Timed>, ttl: nat, i: nat, k: nat, id: nat)
    requires Monotone(ops) && i < k < |ops| && ops[i].op == Take(id) && ops[k].op == Take(id)
    requires AnswerAt(ops, ttl, i).Taken? && AnswerAt(ops, ttl, i).p.Some?
    ensures AnswerAt(ops, ttl, k) == Taken(None)
  {
    TakeMeaning(ops, ttl, i, id);
    TakeMeaning(ops, ttl, k, id);
    var first: nat :| Outstanding(ops[..i], first, id);
    assert ops[..i][..first] == ops[..first];
    forall j: nat | j < k ensures !Outstanding(ops[..k], j, id) {
      assert ops[..k][..j] == ops[..j];
      assert Ends(ops[..k][i].op, id);
      if RegisteredBy(ops, j, id) {
        IdsNeverRepeat(ops, first, j, id);
      }
    }
  }
}

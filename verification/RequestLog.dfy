/** The per-session rolling request log: at most `NETWORK_LOG_CAP` records, the oldest evicted first. */
module RequestLog {
  import opened Text

  const NETWORK_LOG_CAP: nat := 500

  /** `req-{n}` documents, `res-{n}` sub-resources, `oxi-{n}` requests of the JS fetch bridge. */
  datatype RequestId = Req(n: nat) | Res(n: nat) | Oxi(n: nat)

  type Headers = seq<(string, string)>

  datatype RequestRecord = RequestRecord(
    requestId: RequestId,
    url: string,
    method_: string,
    status: Option<nat>,
    responseHeaders: Headers,
    mimeType: string,
    finishedAt: Option<nat>,
    responseBodyLength: Option<nat>)

  /** What a completion writes into its record. */
  datatype Completion = Completion(status: Option<nat>, headers: Headers, mimeType: string,
                                   bodyLength: Option<nat>, at: nat)

  function Completed(r: RequestRecord, c: Completion): RequestRecord {
    r.(status := c.status, responseHeaders := c.headers, mimeType := c.mimeType,
       responseBodyLength := c.bodyLength, finishedAt := Some(c.at))
  }

  function Last<T>(log: seq<T>, n: nat): seq<T> {
    if |log| <= n then log else log[|log| - n..]
  }

  /** Index of the newest record with this id, or -1. */
  function Newest(log: seq<RequestRecord>, id: RequestId): (k: int)
    ensures -1 <= k < |log|
    ensures k >= 0 ==> log[k].requestId == id
    ensures forall j | k < j < |log| :: log[j].requestId != id
  {
    if log == [] then -1
    else if log[|log| - 1].requestId == id then |log| - 1
    else Newest(log[..|log| - 1], id)
  }

  function FinishNewest(log: seq<RequestRecord>, id: RequestId, c: Completion): seq<RequestRecord> {
    var k := Newest(log, id);
    if k < 0 then log else log[k := Completed(log[k], c)]
  }

  datatype Op = Start(record: RequestRecord) | Finish(id: RequestId, completion: Completion) | Clear

  /** One operation on a log that never evicts. */
  function Uncapped(log: seq<RequestRecord>, op: Op): seq<RequestRecord> {
    match op
    case Start(r) => log + [r]
    case Finish(id, c) => FinishNewest(log, id, c)
    case Clear => []
  }

  /** One operation as the session performs it: evict, then append. */
  function Capped(log: seq<RequestRecord>, op: Op): seq<RequestRecord> {
    match op
    case Start(r) => (if |log| >= NETWORK_LOG_CAP then log[1..] else log) + [r]
    case Finish(id, c) => FinishNewest(log, id, c)
    case Clear => []
  }

  function RunUncapped(ops: seq<Op>): seq<RequestRecord> {
    if ops == [] then [] else Uncapped(RunUncapped(ops[..|ops| - 1]), ops[|ops| - 1])
  }

  function RunCapped(ops: seq<Op>): seq<RequestRecord> {
    if ops == [] then [] else Capped(RunCapped(ops[..|ops| - 1]), ops[|ops| - 1])
  }

  /** Position `k` holds the newest record with this id. */
  ghost predicate IsNewest(log: seq<RequestRecord>, id: RequestId, k: int) {
    && -1 <= k < |log| && (k >= 0 ==> log[k].requestId == id)
    && forall j | k < j < |log| :: log[j].requestId != id
  }

  lemma {:induction false} NewestIsUnique(log: seq<RequestRecord>, id: RequestId, k: int)
    requires IsNewest(log, id, k)
    ensures Newest(log, id) == k
  {
  }

  lemma NewestOfTail(log: seq<RequestRecord>, kept: seq<RequestRecord>, drop: nat, id: RequestId, k: int)
    requires |log| == drop + |kept| && forall j | 0 <= j < |kept| :: kept[j] == log[drop + j]
    requires IsNewest(log, id, k)
    ensures IsNewest(kept, id, if k < drop then -1 else k - drop)
  {
  }

  /** The newest record of a suffix is the newest of the whole, when the suffix reaches it. */
  lemma {:induction false} NewestOfSuffix(log: seq<RequestRecord>, id: RequestId, n: nat)
    ensures var drop := |log| - |Last(log, n)|;
            var k := Newest(log, id);
            Newest(Last(log, n), id) == if k < drop then -1 else k - drop
  {
    var kept, k := Last(log, n), Newest(log, id);
    var drop := |log| - |kept|;
    NewestOfTail(log, kept, drop, id, k);
    NewestIsUnique(kept, id, if k < drop then -1 else k - drop);
  }

  lemma CappedStepRefines(log: seq<RequestRecord>, op: Op)
    ensures Capped(Last(log, NETWORK_LOG_CAP), op) == Last(Uncapped(log, op), NETWORK_LOG_CAP)
  {
    match op
    case Start(r) =>
      if |log| >= NETWORK_LOG_CAP {
        assert Last(log, NETWORK_LOG_CAP)[1..] + [r] == (log + [r])[|log| + 1 - NETWORK_LOG_CAP..];
      }
    case Finish(id, c) =>
      NewestOfSuffix(log, id, NETWORK_LOG_CAP);
      assert Capped(Last(log, NETWORK_LOG_CAP), op) == Last(Uncapped(log, op), NETWORK_LOG_CAP);
    case Clear =>
  }

  /** The deque is always the newest `NETWORK_LOG_CAP` records of the log that evicts nothing, even
      when an id was reused or its record is gone by the time it finishes. */
  lemma {:induction false} BoundedLogRefinesUnbounded(ops: seq<Op>)
    ensures RunCapped(ops) == Last(RunUncapped(ops), NETWORK_LOG_CAP)
    ensures |RunCapped(ops)| <= NETWORK_LOG_CAP
  {
    if ops != [] {
      BoundedLogRefinesUnbounded(ops[..|ops| - 1]);
      CappedStepRefines(RunUncapped(ops[..|ops| - 1]), ops[|ops| - 1]);
    }
  }

  lemma CappedOneMore(ops: seq<Op>, op: Op)
    ensures RunCapped(ops + [op]) == Capped(RunCapped(ops), op)
  {
    assert (ops + [op])[..|ops|] == ops;
  }

  /** The mutex-held `VecDeque`. */
  class NetworkLog {
    var entries: seq<RequestRecord>
    ghost var history: seq<Op>

    ghost predicate Valid()
      reads this
    {
      entries == RunCapped(history)
    }

    constructor ()
      ensures Valid() && entries == [] && history == []
    {
      entries := [];
      history := [];
    }

    method RecordRequestStart(record: RequestRecord)
      requires Valid()
      modifies this
      ensures Valid() && history == old(history) + [Start(record)]
      ensures entries == Last(old(entries) + [record], NETWORK_LOG_CAP)
    {
      BoundedLogRefinesUnbounded(history);
      CappedOneMore(history, Start(record));
      if |entries| >= NETWORK_LOG_CAP {
        entries := entries[1..];
      }
      entries := entries + [record];
      history := history + [Start(record)];
    }

    /** Completes the newest record with this id and touches no other. */
    method RecordRequestFinish(id: RequestId, c: Completion)
      requires Valid()
      modifies this
      ensures Valid() && history == old(history) + [Finish(id, c)]
      ensures |entries| == |old(entries)|
      ensures forall j | 0 <= j < |entries| ::
        entries[j] ==
        if old(entries[j]).requestId == id && (forall i | j < i < |entries| :: old(entries[i]).requestId != id)
        then RequestRecord(id, old(entries[j]).url, old(entries[j]).method_, c.status, c.headers, c.mimeType,
                           Some(c.at), c.bodyLength)
        else old(entries[j])
    {
      var k := |entries|;
      while k > 0
        invariant 0 <= k <= |entries|
        invariant entries == old(entries)
        invariant forall j | k <= j < |entries| :: entries[j].requestId != id
      {
        k := k - 1;
        if entries[k].requestId == id {
          entries := entries[k := Completed(entries[k], c)];
          break;
        }
      }
      history := history + [Finish(id, c)];
    }

    method ClearNetworkLog()
      modifies this
      ensures Valid() && entries == []
      ensures history == old(history) + [Clear]
    {
      entries := [];
      history := history + [Clear];
    }
  }
}

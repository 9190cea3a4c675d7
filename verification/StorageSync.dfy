/** Origin-keyed web storage: the messages of script writes, what folding them means, and the sync thread that
    applies them. The localStorage plane stores strings, the IndexedDB plane whole databases. */
module StorageSync {
  import opened Text

  type Origin = string
  type Bucket<V> = map<string, V>
  type Store<V> = map<Origin, Bucket<V>>

  /** Messages of the JS thread, each stamped with its origin, and the barrier with its ticket. */
  datatype Message<V> =
    | SetItem(origin: Origin, key: string, value: V)
    | RemoveItem(origin: Origin, key: string)
    | Clear(origin: Origin)
    | Drain(ticket: nat)

  function BucketOf<V>(store: Store<V>, o: Origin): Bucket<V> {
    if o in store then store[o] else map[]
  }

  /** One message as the sync thread applies it: `entry(origin).or_default()`, then the change. */
  function ApplyMessage<V>(store: Store<V>, m: Message<V>): Store<V> {
    match m
    case SetItem(o, key, value) => store[o := BucketOf(store, o)[key := value]]
    case RemoveItem(o, key) => store[o := BucketOf(store, o) - {key}]
    case Clear(o) => store[o := map[]]
    case Drain(_) => store
  }

  function ApplyAll<V>(store: Store<V>, ms: seq<Message<V>>): Store<V> {
    if ms == [] then store else ApplyMessage(ApplyAll(store, ms[..|ms| - 1]), ms[|ms| - 1])
  }

  predicate Stamped<V>(m: Message<V>, o: Origin) { !m.Drain? && m.origin == o }

  predicate Touches<V>(m: Message<V>, o: Origin, key: string) {
    Stamped(m, o) && (m.Clear? || m.key == key)
  }

  // ---------- what a fold of messages means ----------

  function Lookup<V>(store: Store<V>, o: Origin, key: string): Option<V> {
    if o in store && key in store[o] then Some(store[o][key]) else None
  }

  /** Index of the last message about this key of this origin, or -1. */
  function LastTouch<V>(ms: seq<Message<V>>, o: Origin, key: string): (k: int)
    ensures -1 <= k < |ms|
    ensures k >= 0 ==> Touches(ms[k], o, key)
    ensures forall j | k < j < |ms| :: !Touches(ms[j], o, key)
  {
    if ms == [] then -1
    else if Touches(ms[|ms| - 1], o, key) then |ms| - 1
    else LastTouch(ms[..|ms| - 1], o, key)
  }

  /** Reading a key after any messages gives what the last message about it said, or the old value. */
  lemma {:induction false} LastWriterWins<V>(store: Store<V>, ms: seq<Message<V>>, o: Origin, key: string)
    ensures var k := LastTouch(ms, o, key);
            Lookup(ApplyAll(store, ms), o, key) ==
            if k < 0 then Lookup(store, o, key)
            else if ms[k].SetItem? then Some(ms[k].value) else None
  {
    if ms != [] {
      LastWriterWins(store, ms[..|ms| - 1], o, key);
    }
  }

  /** A bucket exists afterwards if and only if it existed before or some message was stamped with it. */
  lemma {:induction false} BucketsAppear<V>(store: Store<V>, ms: seq<Message<V>>, o: Origin)
    ensures o in ApplyAll(store, ms) <==> o in store || exists i :: 0 <= i < |ms| && Stamped(ms[i], o)
  {
    if ms != [] {
      BucketsAppear(store, ms[..|ms| - 1], o);
      assert ms == ms[..|ms| - 1] + [ms[|ms| - 1]];
    }
  }

  /** The messages stamped with `o`, in order. */
  function OfOrigin<V>(ms: seq<Message<V>>, o: Origin): seq<Message<V>> {
    if ms == [] then []
    else OfOrigin(ms[..|ms| - 1], o) + (if Stamped(ms[|ms| - 1], o) then [ms[|ms| - 1]] else [])
  }

  ghost predicate SameBucket<V>(one: Store<V>, two: Store<V>, o: Origin) {
    (o in one <==> o in two) && BucketOf(one, o) == BucketOf(two, o)
  }

  /** A message acts on its own origin's bucket only, and by that bucket only. */
  lemma ActsOnOwnBucket<V>(one: Store<V>, two: Store<V>, m: Message<V>, o: Origin)
    requires SameBucket(one, two, o)
    ensures Stamped(m, o) ==> SameBucket(ApplyMessage(one, m), ApplyMessage(two, m), o)
    ensures !Stamped(m, o) ==> SameBucket(ApplyMessage(one, m), two, o)
  {
  }

  lemma {:induction false} OnlyOwnMessages<V>(store: Store<V>, ms: seq<Message<V>>, o: Origin)
    ensures SameBucket(ApplyAll(store, ms), ApplyAll(store, OfOrigin(ms, o)), o)
  {
    if ms != [] {
      var init, last := ms[..|ms| - 1], ms[|ms| - 1];
      OnlyOwnMessages(store, init, o);
      var own := OfOrigin(init, o);
      ActsOnOwnBucket(ApplyAll(store, init), ApplyAll(store, own), last, o);
      if Stamped(last, o) {
        assert (own + [last])[..|own|] == own;
      } else {
        assert own + [] == own;
      }
    }
  }

  /** Two interleavings of any number of sessions' streams that agree origin by origin leave the same store. */
  lemma OriginPartition<V(!new)>(store: Store<V>, one: seq<Message<V>>, two: seq<Message<V>>)
    requires forall o :: OfOrigin(one, o) == OfOrigin(two, o)
    ensures ApplyAll(store, one) == ApplyAll(store, two)
  {
    var s1, s2 := ApplyAll(store, one), ApplyAll(store, two);
    forall o ensures (o in s1 <==> o in s2) && BucketOf(s1, o) == BucketOf(s2, o) {
      OnlyOwnMessages(store, one, o);
      OnlyOwnMessages(store, two, o);
      assert SameBucket(s1, s2, o);
    }
    assert forall o | o in s1 :: s1[o] == BucketOf(s1, o) && s2[o] == BucketOf(s2, o);
  }

  /** The messages about one key of one origin, in order; a `Clear` is about every key of its origin. */
  function OfKey<V>(ms: seq<Message<V>>, o: Origin, key: string): seq<Message<V>> {
    if ms == [] then []
    else OfKey(ms[..|ms| - 1], o, key) + (if Touches(ms[|ms| - 1], o, key) then [ms[|ms| - 1]] else [])
  }

  lemma {:induction false} OfKeyMembers<V>(ms: seq<Message<V>>, o: Origin, key: string)
    ensures forall m :: m in OfKey(ms, o, key) <==> m in ms && Touches(m, o, key)
  {
    if ms != [] {
      OfKeyMembers(ms[..|ms| - 1], o, key);
      assert ms == ms[..|ms| - 1] + [ms[|ms| - 1]];
    }
  }

  lemma {:induction false} OnlyKeyMessages<V>(store: Store<V>, ms: seq<Message<V>>, o: Origin, key: string)
    ensures Lookup(ApplyAll(store, ms), o, key) == Lookup(ApplyAll(store, OfKey(ms, o, key)), o, key)
  {
    if ms != [] {
      var init, last := ms[..|ms| - 1], ms[|ms| - 1];
      OnlyKeyMessages(store, init, o, key);
      var own := OfKey(init, o, key);
      if Touches(last, o, key) {
        assert (own + [last])[..|own|] == own;
      } else {
        assert own + [] == own;
      }
    }
  }

  lemma SameOrigins<V(!new)>(store: Store<V>, one: seq<Message<V>>, two: seq<Message<V>>, o: Origin)
    requires forall key :: OfKey(one, o, key) == OfKey(two, o, key)
    requires o in ApplyAll(store, one)
    ensures o in ApplyAll(store, two)
  {
    BucketsAppear(store, one, o);
    BucketsAppear(store, two, o);
    if o !in store {
      var i :| 0 <= i < |one| && Stamped(one[i], o);
      var key := if one[i].Clear? then "" else one[i].key;
      OfKeyMembers(one, o, key);
      OfKeyMembers(two, o, key);
      assert one[i] in two;
    }
  }

  /** Two interleavings that agree key by key leave the same store: what is sent about other keys, or about other
      databases of the same origin, does not matter. */
  lemma KeyPartition<V(!new)>(store: Store<V>, one: seq<Message<V>>, two: seq<Message<V>>)
    requires forall o, key :: OfKey(one, o, key) == OfKey(two, o, key)
    ensures ApplyAll(store, one) == ApplyAll(store, two)
  {
    var s1, s2 := ApplyAll(store, one), ApplyAll(store, two);
    forall o ensures o in s1 <==> o in s2 {
      if o in s1 { SameOrigins(store, one, two, o); }
      if o in s2 { SameOrigins(store, two, one, o); }
    }
    forall o, key ensures Lookup(s1, o, key) == Lookup(s2, o, key) {
      OnlyKeyMessages(store, one, o, key);
      OnlyKeyMessages(store, two, o, key);
    }
    LookupsDecide(s1, s2);
  }

  lemma LookupsDecide<V(!new)>(s1: Store<V>, s2: Store<V>)
    requires s1.Keys == s2.Keys && forall o, key :: Lookup(s1, o, key) == Lookup(s2, o, key)
    ensures s1 == s2
  {
    forall o | o in s1 ensures s1[o] == s2[o] {
      assert forall key :: Lookup(s1, o, key) == Lookup(s2, o, key);
      assert s1[o].Keys == s2[o].Keys by {
        forall key ensures key in s1[o] <==> key in s2[o] {
          assert Lookup(s1, o, key) == Lookup(s2, o, key);
        }
      }
      forall key | key in s1[o] ensures s1[o][key] == s2[o][key] {
        assert Lookup(s1, o, key) == Lookup(s2, o, key);
      }
    }
  }

  /** The context's map and the loop of one sync thread over the messages it has received. */
  class ContextStorage<V> {
    var buckets: Store<V>

    constructor ()
      ensures buckets == map[]
    {
      buckets := map[];
    }

    method Entry(o: Origin) returns (bucket: Bucket<V>)
      modifies this
      ensures bucket == BucketOf(old(buckets), o)
      ensures buckets == old(buckets)[o := bucket]
    {
      if o !in buckets {
        buckets := buckets[o := map[]];
      }
      bucket := buckets[o];
    }

    /** One write; a barrier changes nothing. */
    method ApplyOne(m: Message<V>)
      modifies this
      ensures buckets == ApplyMessage(old(buckets), m)
    {
      match m
      case Drain(_) =>
      case SetItem(o, key, value) =>
        var bucket := Entry(o);
        buckets := buckets[o := bucket[key := value]];
      case RemoveItem(o, key) =>
        var bucket := Entry(o);
        buckets := buckets[o := bucket - {key}];
      case Clear(o) =>
        var bucket := Entry(o);
        buckets := buckets[o := map[]];
    }

    /** Applies every received message in order and acknowledges the barriers among them. */
    method HandleSync(received: seq<Message<V>>) returns (acks: set<nat>)
      modifies this
      ensures buckets == ApplyAll(old(buckets), received)
      ensures forall t :: t in acks <==> Drain(t) in received
    {
      acks := {};
      for i := 0 to |received|
        invariant buckets == ApplyAll(old(buckets), received[..i])
        invariant forall t :: t in acks <==> Drain(t) in received[..i]
      {
        assert received[..i + 1][..i] == received[..i];
        assert received[..i + 1] == received[..i] + [received[i]];
        ApplyOne(received[i]);
        if received[i].Drain? {
          acks := acks + {received[i].ticket};
        }
      }
      assert received[..|received|] == received;
    }
  }
}

/** Storage state: exporting the storage of one account scope and importing it into a context. */
module StorageState {
  import opened Text
  import opened StorageSync

  datatype IdbDatabase = IdbDatabase(
    name: string,
    version: nat,
    stores: map<string, map<string, string>>,
    keyPaths: map<string, Option<string>>)

  datatype OriginState = OriginState(
    origin: Origin,
    localStorage: seq<(string, string)>,
    indexedDb: Option<seq<IdbDatabase>>)

  /** The registrable domain of an origin key; `None` when the key is no URL, opaque or without a host. */
  type ScopeOf = Origin -> Option<string>

  // ---------- what an export is ----------

  ghost predicate Exports(scopeOf: ScopeOf, scope: string, ls: Store<string>, idb: Store<IdbDatabase>, o: Origin) {
    scopeOf(o) == Some(scope) && (BucketOf(ls, o) != map[] || BucketOf(idb, o) != map[])
  }

  ghost predicate DistinctNames(list: seq<(string, string)>) {
    forall i, j | 0 <= i < j < |list| :: list[i].0 != list[j].0
  }

  /** `list` holds every entry of the bucket once, in some order. */
  ghost predicate ListsEntries(list: seq<(string, string)>, bucket: Bucket<string>) {
    && DistinctNames(list)
    && (forall e | e in list :: e.0 in bucket && bucket[e.0] == e.1)
    && (forall k | k in bucket :: (k, bucket[k]) in list)
  }

  ghost predicate ListsInOrder<V>(list: seq<V>, keys: seq<string>, bucket: Bucket<V>) {
    && |list| == |keys|
    && (forall i, j | 0 <= i < j < |keys| :: keys[i] != keys[j])
    && (forall i | 0 <= i < |keys| :: keys[i] in bucket && bucket[keys[i]] == list[i])
    && (forall k | k in bucket :: k in keys)
  }

  /** `list` holds the value of every key once, in some order of the keys. */
  ghost predicate ListsValues<V>(list: seq<V>, bucket: Bucket<V>) {
    exists keys :: ListsInOrder(list, keys, bucket)
  }

  ghost predicate EntryRight(ls: Store<string>, idb: Store<IdbDatabase>, e: OriginState) {
    && ListsEntries(e.localStorage, BucketOf(ls, e.origin))
    && (match e.indexedDb
        case None => BucketOf(idb, e.origin) == map[]
        case Some(dbs) => BucketOf(idb, e.origin) != map[] && ListsValues(dbs, BucketOf(idb, e.origin)))
  }

  /** A possible export: sorted origins, exactly the in-scope ones that hold something, buckets in any order. */
  ghost predicate IsExport(scopeOf: ScopeOf, scope: string, ls: Store<string>, idb: Store<IdbDatabase>,
                           st: seq<OriginState>)
  {
    && (forall i, j | 0 <= i < j < |st| :: LexLess(st[i].origin, st[j].origin))
    && (forall e | e in st :: Exports(scopeOf, scope, ls, idb, e.origin) && EntryRight(ls, idb, e))
    && (forall o | Exports(scopeOf, scope, ls, idb, o) :: exists e :: e in st && e.origin == o)
  }

  // ---------- what an import does ----------

  function InsertEntries(bucket: Bucket<string>, list: seq<(string, string)>): Bucket<string> {
    if list == [] then bucket
    else InsertEntries(bucket, list[..|list| - 1])[list[|list| - 1].0 := list[|list| - 1].1]
  }

  function InsertDatabases(bucket: Bucket<IdbDatabase>, dbs: seq<IdbDatabase>): Bucket<IdbDatabase> {
    if dbs == [] then bucket
    else InsertDatabases(bucket, dbs[..|dbs| - 1])[dbs[|dbs| - 1].name := dbs[|dbs| - 1]]
  }

  function ImportLocal(ls: Store<string>, st: seq<OriginState>): Store<string> {
    if st == [] then ls
    else
      var before, e := ImportLocal(ls, st[..|st| - 1]), st[|st| - 1];
      before[e.origin := InsertEntries(BucketOf(before, e.origin), e.localStorage)]
  }

  function ImportIdb(idb: Store<IdbDatabase>, st: seq<OriginState>): Store<IdbDatabase> {
    if st == [] then idb
    else
      var before, e := ImportIdb(idb, st[..|st| - 1]), st[|st| - 1];
      if e.indexedDb.None? then before
      else before[e.origin := InsertDatabases(BucketOf(before, e.origin), e.indexedDb.value)]
  }

  // ---------- what an import leaves, key by key ----------

  /** Position of the last entry with this key, or -1. */
  function LastKeyed(list: seq<(string, string)>, key: string): (j: int)
    ensures -1 <= j < |list|
    ensures j >= 0 ==> list[j].0 == key
    ensures forall l | j < l < |list| :: list[l].0 != key
  {
    if list == [] then -1
    else if list[|list| - 1].0 == key then |list| - 1
    else LastKeyed(list[..|list| - 1], key)
  }

  /** The value the state lists last for this key of this origin. */
  function LastListed(st: seq<OriginState>, o: Origin, key: string): Option<string> {
    if st == [] then None
    else
      var e := st[|st| - 1];
      if e.origin == o && LastKeyed(e.localStorage, key) >= 0
      then Some(e.localStorage[LastKeyed(e.localStorage, key)].1)
      else LastListed(st[..|st| - 1], o, key)
  }

  /** The database the state lists last under this name for this origin. */
  function LastDatabase(st: seq<OriginState>, o: Origin, name: string): Option<IdbDatabase> {
    if st == [] then None
    else
      var e := st[|st| - 1];
      if e.origin == o && e.indexedDb.Some? && LastNamed(e.indexedDb.value, name) >= 0
      then Some(e.indexedDb.value[LastNamed(e.indexedDb.value, name)])
      else LastDatabase(st[..|st| - 1], o, name)
  }

  /** For this origin and key: the value listed last, or else what was there; and a bucket if one was there or the
      origin is listed. */
  ghost predicate EntryMerged(ls: Store<string>, st: seq<OriginState>, ls': Store<string>, o: Origin, key: string) {
    && Lookup(ls', o, key) == (if LastListed(st, o, key).Some? then LastListed(st, o, key) else Lookup(ls, o, key))
    && (o in ls' <==> o in ls || exists i :: 0 <= i < |st| && st[i].origin == o)
  }

  /** The same for databases, by the name each carries; a state without a database list adds no bucket. */
  ghost predicate DatabaseMerged(idb: Store<IdbDatabase>, st: seq<OriginState>, idb': Store<IdbDatabase>, o: Origin,
                                 name: string) {
    && Lookup(idb', o, name)
       == (if LastDatabase(st, o, name).Some? then LastDatabase(st, o, name) else Lookup(idb, o, name))
    && (o in idb' <==> o in idb || exists i :: 0 <= i < |st| && st[i].origin == o && st[i].indexedDb.Some?)
  }

  lemma {:induction false} InsertedEntry(bucket: Bucket<string>, list: seq<(string, string)>, key: string)
    ensures var after, j := InsertEntries(bucket, list), LastKeyed(list, key);
            && (key in after <==> key in bucket || j >= 0)
            && (key in after ==> after[key] == if j >= 0 then list[j].1 else bucket[key])
  {
    if list != [] {
      InsertedEntry(bucket, list[..|list| - 1], key);
    }
  }

  lemma {:induction false} ImportedEntry(ls: Store<string>, st: seq<OriginState>, o: Origin, key: string)
    ensures EntryMerged(ls, st, ImportLocal(ls, st), o, key)
  {
    if st != [] {
      var init, e := st[..|st| - 1], st[|st| - 1];
      ImportedEntry(ls, init, o, key);
      assert st == init + [e];
      InsertedEntry(BucketOf(ImportLocal(ls, init), o), e.localStorage, key);
    }
  }

  lemma {:induction false} ImportedDatabase(idb: Store<IdbDatabase>, st: seq<OriginState>, o: Origin, name: string)
    ensures DatabaseMerged(idb, st, ImportIdb(idb, st), o, name)
  {
    if st != [] {
      var init, e := st[..|st| - 1], st[|st| - 1];
      ImportedDatabase(idb, init, o, name);
      assert st == init + [e];
      if e.indexedDb.Some? {
        LastNamedWins(BucketOf(ImportIdb(idb, init), o), e.indexedDb.value, name);
      }
    }
  }

  /** Importing into any storage merges: what is listed last wins, what is not listed stays. */
  lemma ImportMerges(ls: Store<string>, idb: Store<IdbDatabase>, st: seq<OriginState>)
    ensures forall o, key :: EntryMerged(ls, st, ImportLocal(ls, st), o, key)
    ensures forall o, name :: DatabaseMerged(idb, st, ImportIdb(idb, st), o, name)
  {
    forall o, key ensures EntryMerged(ls, st, ImportLocal(ls, st), o, key) {
      ImportedEntry(ls, st, o, key);
    }
    forall o, name ensures DatabaseMerged(idb, st, ImportIdb(idb, st), o, name) {
      ImportedDatabase(idb, st, o, name);
    }
  }

  // ---------- the invariant behind the round trip ----------

  ghost predicate BucketKeyedByName(bucket: Bucket<IdbDatabase>) {
    forall k | k in bucket :: bucket[k].name == k
  }

  ghost predicate KeyedByName(idb: Store<IdbDatabase>) {
    forall o | o in idb :: BucketKeyedByName(idb[o])
  }

  /** The sync thread stores a received database under the name it carries. */
  predicate PutsByName(m: Message<IdbDatabase>) { m.SetItem? ==> m.value.name == m.key }

  lemma {:induction false} SyncKeepsKeyedByName(idb: Store<IdbDatabase>, ms: seq<Message<IdbDatabase>>)
    requires KeyedByName(idb) && forall m | m in ms :: PutsByName(m)
    ensures KeyedByName(ApplyAll(idb, ms))
  {
    if ms != [] {
      var init, last := ms[..|ms| - 1], ms[|ms| - 1];
      assert forall m | m in init :: m in ms;
      SyncKeepsKeyedByName(idb, init);
      assert PutsByName(last);
      if !last.Drain? {
        assert BucketKeyedByName(BucketOf(ApplyAll(idb, init), last.origin));
      }
    }
  }

  lemma {:induction false} InsertKeepsKeyedByName(bucket: Bucket<IdbDatabase>, dbs: seq<IdbDatabase>)
    requires BucketKeyedByName(bucket)
    ensures BucketKeyedByName(InsertDatabases(bucket, dbs))
  {
    if dbs != [] {
      InsertKeepsKeyedByName(bucket, dbs[..|dbs| - 1]);
    }
  }

  /** Importing any state, exported or hand-written, keeps every database keyed by its own name. */
  lemma {:induction false} ImportKeepsKeyedByName(idb: Store<IdbDatabase>, st: seq<OriginState>)
    requires KeyedByName(idb)
    ensures KeyedByName(ImportIdb(idb, st))
  {
    if st != [] {
      var before, e := ImportIdb(idb, st[..|st| - 1]), st[|st| - 1];
      ImportKeepsKeyedByName(idb, st[..|st| - 1]);
      if e.indexedDb.Some? {
        InsertKeepsKeyedByName(BucketOf(before, e.origin), e.indexedDb.value);
      }
    }
  }

  // ---------- the round trip ----------

  lemma {:induction false} EntriesRebuild(list: seq<(string, string)>)
    requires DistinctNames(list)
    ensures ListsEntries(list, InsertEntries(map[], list))
  {
    if list != [] {
      var init, last := list[..|list| - 1], list[|list| - 1];
      EntriesRebuild(init);
      assert list == init + [last];
    }
  }

  lemma SameListSameBucket(list: seq<(string, string)>, one: Bucket<string>, two: Bucket<string>)
    requires ListsEntries(list, one) && ListsEntries(list, two)
    ensures one == two
  {
    forall k | k in one ensures k in two && one[k] == two[k] {
      assert (k, one[k]) in list;
    }
    forall k | k in two ensures k in one {
      assert (k, two[k]) in list;
    }
  }

  /** Index of the last listed database with this name, or -1. */
  function LastNamed(dbs: seq<IdbDatabase>, name: string): (k: int)
    ensures -1 <= k < |dbs|
    ensures k >= 0 ==> dbs[k].name == name
    ensures forall j | k < j < |dbs| :: dbs[j].name != name
  {
    if dbs == [] then -1
    else if dbs[|dbs| - 1].name == name then |dbs| - 1
    else LastNamed(dbs[..|dbs| - 1], name)
  }

  /** Of several databases with one name the last one stays. */
  lemma {:induction false} LastNamedWins(bucket: Bucket<IdbDatabase>, dbs: seq<IdbDatabase>, name: string)
    ensures var after, k := InsertDatabases(bucket, dbs), LastNamed(dbs, name);
            && (name in after <==> k >= 0 || name in bucket)
            && (k >= 0 ==> after[name] == dbs[k])
            && (k < 0 && name in bucket ==> after[name] == bucket[name])
  {
    if dbs != [] {
      LastNamedWins(bucket, dbs[..|dbs| - 1], name);
    }
  }

  lemma DatabasesRebuild(dbs: seq<IdbDatabase>, bucket: Bucket<IdbDatabase>)
    requires ListsValues(dbs, bucket) && BucketKeyedByName(bucket)
    ensures InsertDatabases(map[], dbs) == bucket
  {
    var keys :| ListsInOrder(dbs, keys, bucket);
    var after := InsertDatabases(map[], dbs);
    forall i | 0 <= i < |dbs| ensures dbs[i].name == keys[i] {
      assert bucket[keys[i]] == dbs[i];
    }
    forall name ensures name in after <==> name in bucket {
      LastNamedWins(map[], dbs, name);
      if name in bucket {
        var i :| 0 <= i < |keys| && keys[i] == name;
        assert dbs[i].name == name;
      }
    }
    forall name | name in after ensures after[name] == bucket[name] {
      LastNamedWins(map[], dbs, name);
      assert keys[LastNamed(dbs, name)] == name;
    }
  }

  /** Index of the last state of this origin, or -1. */
  function LastOf(st: seq<OriginState>, o: Origin): (k: int)
    ensures -1 <= k < |st|
    ensures k >= 0 ==> st[k].origin == o
    ensures forall j | k < j < |st| :: st[j].origin != o
  {
    if st == [] then -1
    else if st[|st| - 1].origin == o then |st| - 1
    else LastOf(st[..|st| - 1], o)
  }

  ghost predicate DistinctOrigins(st: seq<OriginState>) {
    forall i, j | 0 <= i < j < |st| :: st[i].origin != st[j].origin
  }

  /** Importing distinct origins into empty storage gives each its own rebuilt bucket. */
  lemma {:induction false} ImportedOrigin(st: seq<OriginState>, o: Origin)
    requires DistinctOrigins(st)
    ensures var ls, idb, k := ImportLocal(map[], st), ImportIdb(map[], st), LastOf(st, o);
            && (o in ls <==> k >= 0)
            && (k >= 0 ==> ls[o] == InsertEntries(map[], st[k].localStorage))
            && (o in idb <==> k >= 0 && st[k].indexedDb.Some?)
            && (o in idb ==> idb[o] == InsertDatabases(map[], st[k].indexedDb.value))
  {
    if st != [] {
      ImportedOrigin(st[..|st| - 1], o);
    }
  }

  lemma ExportOriginsDistinct(scopeOf: ScopeOf, scope: string, ls: Store<string>, idb: Store<IdbDatabase>,
                              st: seq<OriginState>)
    requires IsExport(scopeOf, scope, ls, idb, st)
    ensures DistinctOrigins(st)
  {
    forall i, j | 0 <= i < j < |st| ensures st[i].origin != st[j].origin {
      LexLessIsStrictOrder(st[i].origin, st[j].origin, "");
    }
  }

  /** The databases of every exported origin, or nothing. */
  ghost predicate IdbRebuilt(scopeOf: ScopeOf, scope: string, ls: Store<string>, idb: Store<IdbDatabase>,
                             idb': Store<IdbDatabase>)
  {
    forall o ::
      && (o in idb' <==> Exports(scopeOf, scope, ls, idb, o) && BucketOf(idb, o) != map[])
      && (o in idb' ==> idb'[o] == idb[o])
  }

  /** The localStorage bucket of every exported origin (empty when only its databases made it an export). */
  ghost predicate LocalRebuilt(scopeOf: ScopeOf, scope: string, ls: Store<string>, idb: Store<IdbDatabase>,
                               ls': Store<string>)
  {
    forall o ::
      && (o in ls' <==> Exports(scopeOf, scope, ls, idb, o))
      && (o in ls' ==> ls'[o] == BucketOf(ls, o))
  }

  /** An origin is exported exactly when the state lists it. */
  lemma ListedIffExported(scopeOf: ScopeOf, scope: string, ls: Store<string>, idb: Store<IdbDatabase>,
                          st: seq<OriginState>, o: Origin)
    requires IsExport(scopeOf, scope, ls, idb, st)
    ensures Exports(scopeOf, scope, ls, idb, o) <==> LastOf(st, o) >= 0
    ensures LastOf(st, o) >= 0 ==> EntryRight(ls, idb, st[LastOf(st, o)])
  {
    var k := LastOf(st, o);
    if k >= 0 {
      assert st[k] in st;
    }
  }

  lemma LocalRoundTrip(scopeOf: ScopeOf, scope: string, ls: Store<string>, idb: Store<IdbDatabase>,
                       st: seq<OriginState>)
    requires IsExport(scopeOf, scope, ls, idb, st)
    ensures LocalRebuilt(scopeOf, scope, ls, idb, ImportLocal(map[], st))
  {
    var ls' := ImportLocal(map[], st);
    ExportOriginsDistinct(scopeOf, scope, ls, idb, st);
    forall o
      ensures o in ls' <==> Exports(scopeOf, scope, ls, idb, o)
      ensures o in ls' ==> ls'[o] == BucketOf(ls, o)
    {
      ImportedOrigin(st, o);
      ListedIffExported(scopeOf, scope, ls, idb, st, o);
      if o in ls' {
        var list := st[LastOf(st, o)].localStorage;
        EntriesRebuild(list);
        SameListSameBucket(list, BucketOf(ls, o), InsertEntries(map[], list));
      }
    }
  }

  lemma IdbRoundTripAt(scopeOf: ScopeOf, scope: string, ls: Store<string>, idb: Store<IdbDatabase>,
                       st: seq<OriginState>, o: Origin)
    requires IsExport(scopeOf, scope, ls, idb, st)
    ensures var idb' := ImportIdb(map[], st);
            && (o in idb' <==> Exports(scopeOf, scope, ls, idb, o) && BucketOf(idb, o) != map[])
            && (o in idb' && BucketKeyedByName(idb[o]) ==> idb'[o] == idb[o])
  {
    ExportOriginsDistinct(scopeOf, scope, ls, idb, st);
    ImportedOrigin(st, o);
    ListedIffExported(scopeOf, scope, ls, idb, st, o);
    if o in ImportIdb(map[], st) && BucketKeyedByName(idb[o]) {
      DatabasesRebuild(st[LastOf(st, o)].indexedDb.value, idb[o]);
    }
  }

  /** Every in-scope database is stored under its own name. */
  ghost predicate ScopeKeyedByName(scopeOf: ScopeOf, scope: string, idb: Store<IdbDatabase>) {
    forall o | o in idb && scopeOf(o) == Some(scope) :: BucketKeyedByName(idb[o])
  }

  /** Import after export rebuilds the databases if and only if every exported one is stored under its own name. */
  lemma IdbRoundTripIff(scopeOf: ScopeOf, scope: string, ls: Store<string>, idb: Store<IdbDatabase>,
                        st: seq<OriginState>)
    requires IsExport(scopeOf, scope, ls, idb, st)
    ensures IdbRebuilt(scopeOf, scope, ls, idb, ImportIdb(map[], st)) <==> ScopeKeyedByName(scopeOf, scope, idb)
  {
    var idb' := ImportIdb(map[], st);
    forall o { IdbRoundTripAt(scopeOf, scope, ls, idb, st, o); }
    if IdbRebuilt(scopeOf, scope, ls, idb, idb') {
      ImportKeepsKeyedByName(map[], st);
      forall o | o in idb && scopeOf(o) == Some(scope) ensures BucketKeyedByName(idb[o]) {
        if idb[o] != map[] {
          assert Exports(scopeOf, scope, ls, idb, o);
          assert o in idb' && idb'[o] == idb[o];
        }
      }
    }
  }

  /** Two storages hold the same for every origin the scope exports. */
  ghost predicate SameInScope(scopeOf: ScopeOf, scope: string, ls: Store<string>, idb: Store<IdbDatabase>,
                              ls': Store<string>, idb': Store<IdbDatabase>) {
    forall o ::
      && (Exports(scopeOf, scope, ls', idb', o) <==> Exports(scopeOf, scope, ls, idb, o))
      && (Exports(scopeOf, scope, ls, idb, o) ==>
            BucketOf(ls', o) == BucketOf(ls, o) && BucketOf(idb', o) == BucketOf(idb, o))
  }

  lemma SameExports(scopeOf: ScopeOf, scope: string, ls: Store<string>, idb: Store<IdbDatabase>,
                    ls': Store<string>, idb': Store<IdbDatabase>, st: seq<OriginState>)
    requires SameInScope(scopeOf, scope, ls, idb, ls', idb')
    ensures IsExport(scopeOf, scope, ls', idb', st) <==> IsExport(scopeOf, scope, ls, idb, st)
  {
    forall e: OriginState | Exports(scopeOf, scope, ls, idb, e.origin)
      ensures EntryRight(ls', idb', e) <==> EntryRight(ls, idb, e)
    {
    }
  }

  /** Exporting the rebuilt storage gives the same possible states as exporting the original. */
  lemma ExportAgain(scopeOf: ScopeOf, scope: string, ls: Store<string>, idb: Store<IdbDatabase>, st: seq<OriginState>,
                    again: seq<OriginState>)
    requires IsExport(scopeOf, scope, ls, idb, st) && ScopeKeyedByName(scopeOf, scope, idb)
    ensures IsExport(scopeOf, scope, ImportLocal(map[], st), ImportIdb(map[], st), again)
       <==> IsExport(scopeOf, scope, ls, idb, again)
  {
    var ls', idb' := ImportLocal(map[], st), ImportIdb(map[], st);
    LocalRoundTrip(scopeOf, scope, ls, idb, st);
    IdbRoundTripIff(scopeOf, scope, ls, idb, st);
    forall o
      ensures Exports(scopeOf, scope, ls', idb', o) <==> Exports(scopeOf, scope, ls, idb, o)
      ensures Exports(scopeOf, scope, ls, idb, o) ==>
                BucketOf(ls', o) == BucketOf(ls, o) && BucketOf(idb', o) == BucketOf(idb, o)
    {
      assert o in ls' <==> Exports(scopeOf, scope, ls, idb, o);
      assert o in idb' <==> Exports(scopeOf, scope, ls, idb, o) && BucketOf(idb, o) != map[];
    }
    SameExports(scopeOf, scope, ls, idb, ls', idb', again);
  }

  /** What reaches the database plane: messages applied by the sync threads, and imports. */
  datatype IdbOp = Synced(ms: seq<Message<IdbDatabase>>) | Imported(st: seq<OriginState>)

  function RunIdb(ops: seq<IdbOp>): Store<IdbDatabase> {
    if ops == [] then map[]
    else
      var before := RunIdb(ops[..|ops| - 1]);
      match ops[|ops| - 1]
      case Synced(ms) => ApplyAll(before, ms)
      case Imported(st) => ImportIdb(before, st)
  }

  ghost predicate Sendable(ops: seq<IdbOp>) {
    forall op | op in ops && op.Synced? :: forall m | m in op.ms :: PutsByName(m)
  }

  /** From empty storage, whatever is synced and imported, every database stays under its own name. */
  lemma {:induction false} RunsKeepKeyedByName(ops: seq<IdbOp>)
    requires Sendable(ops)
    ensures KeyedByName(RunIdb(ops))
  {
    if ops != [] {
      var init, last := ops[..|ops| - 1], ops[|ops| - 1];
      assert forall op | op in init :: op in ops;
      RunsKeepKeyedByName(init);
      assert last in ops;
      match last
      case Synced(ms) => SyncKeepsKeyedByName(RunIdb(init), ms);
      case Imported(st) => ImportKeepsKeyedByName(RunIdb(init), st);
    }
  }

  /** So the round trip holds of every storage a run can reach: importing its export into empty storage rebuilds all
      exported buckets, and exporting that allows exactly the states the original allowed. */
  lemma ReachedRoundTrip(scopeOf: ScopeOf, scope: string, ls: Store<string>, ops: seq<IdbOp>, st: seq<OriginState>,
                         again: seq<OriginState>)
    requires Sendable(ops) && IsExport(scopeOf, scope, ls, RunIdb(ops), st)
    ensures LocalRebuilt(scopeOf, scope, ls, RunIdb(ops), ImportLocal(map[], st))
    ensures IdbRebuilt(scopeOf, scope, ls, RunIdb(ops), ImportIdb(map[], st))
    ensures IsExport(scopeOf, scope, ImportLocal(map[], st), ImportIdb(map[], st), again)
       <==> IsExport(scopeOf, scope, ls, RunIdb(ops), again)
  {
    RunsKeepKeyedByName(ops);
    LocalRoundTrip(scopeOf, scope, ls, RunIdb(ops), st);
    IdbRoundTripIff(scopeOf, scope, ls, RunIdb(ops), st);
    ExportAgain(scopeOf, scope, ls, RunIdb(ops), st, again);
  }

  // ---------- the session's two operations ----------

  function AsciiLower(s: string): string {
    seq(|s|, i requires 0 <= i < |s| => if 'A' <= s[i] <= 'Z' then (s[i] as int + 32) as char else s[i])
  }

  /** `t` is `s` with each upper-case ASCII letter replaced by the lower-case one at the same place of the alphabet. */
  ghost predicate LowersTo(s: string, t: string) {
    && |t| == |s|
    && forall i | 0 <= i < |s| ::
         if 'A' <= s[i] <= 'Z' then 'a' <= t[i] <= 'z' && t[i] as int - 'a' as int == s[i] as int - 'A' as int
         else t[i] == s[i]
  }

  lemma LoweredAscii(s: string)
    ensures LowersTo(s, AsciiLower(s))
  {
  }

  ghost predicate Sorted(keys: seq<string>) {
    forall i, j | 0 <= i < j < |keys| :: LexLess(keys[i], keys[j])
  }

  lemma {:induction false} LeastExists(keys: set<string>) returns (m: string)
    requires keys != {}
    ensures m in keys && forall k | k in keys && k != m :: LexLess(m, k)
  {
    m :| m in keys;
    var rest := keys - {m};
    assert forall k | k in keys && k != m :: k in rest;
    if rest != {} {
      var least := LeastExists(rest);
      LexLessIsStrictOrder(m, least, "");
      if LexLess(m, least) {
        forall k | k in keys && k != m ensures LexLess(m, k) {
          LexLessIsStrictOrder(m, least, k);
        }
      } else {
        m := least;
      }
    }
  }

  /** `keys.sort(); keys.dedup()` */
  method SortedKeys(keys: set<string>) returns (sorted: seq<string>)
    ensures Sorted(sorted)
    ensures forall k :: k in sorted <==> k in keys
  {
    sorted := [];
    var rest := keys;
    while rest != {}
      invariant Sorted(sorted) && rest <= keys
      invariant forall k :: k in sorted <==> k in keys && k !in rest
      invariant forall k, r | k in sorted && r in rest :: LexLess(k, r)
      decreases rest
    {
      ghost var least := LeastExists(rest);
      var m :| m in rest && forall k | k in rest && k != m :: LexLess(m, k);
      sorted := sorted + [m];
      rest := rest - {m};
    }
  }

  method ListEntries(bucket: Bucket<string>) returns (list: seq<(string, string)>)
    ensures ListsEntries(list, bucket)
  {
    list := [];
    var rest := bucket.Keys;
    while rest != {}
      invariant rest <= bucket.Keys && DistinctNames(list)
      invariant forall e | e in list :: e.0 in bucket && e.0 !in rest && bucket[e.0] == e.1
      invariant forall k | k in bucket && k !in rest :: (k, bucket[k]) in list
      decreases rest
    {
      var k :| k in rest;
      list := list + [(k, bucket[k])];
      rest := rest - {k};
    }
  }

  method ListDatabases(bucket: Bucket<IdbDatabase>) returns (list: seq<IdbDatabase>)
    ensures ListsValues(list, bucket)
  {
    list := [];
    ghost var keys: seq<string> := [];
    var rest := bucket.Keys;
    while rest != {}
      invariant rest <= bucket.Keys && |list| == |keys|
      invariant forall i, j | 0 <= i < j < |keys| :: keys[i] != keys[j]
      invariant forall i | 0 <= i < |keys| :: keys[i] in bucket && keys[i] !in rest && bucket[keys[i]] == list[i]
      invariant forall k | k in bucket && k !in rest :: k in keys
      decreases rest
    {
      var k :| k in rest;
      list := list + [bucket[k]];
      keys := keys + [k];
      rest := rest - {k};
    }
    assert ListsInOrder(list, keys, bucket);
  }

  /** The exported ones among these keys, in order. */
  ghost function Chosen(scopeOf: ScopeOf, scope: string, ls: Store<string>, idb: Store<IdbDatabase>,
                        keys: seq<string>): seq<string>
  {
    if keys == [] then []
    else Chosen(scopeOf, scope, ls, idb, keys[..|keys| - 1])
         + (if Exports(scopeOf, scope, ls, idb, keys[|keys| - 1]) then [keys[|keys| - 1]] else [])
  }

  lemma {:induction false} ChosenMembers(scopeOf: ScopeOf, scope: string, ls: Store<string>, idb: Store<IdbDatabase>,
                                         keys: seq<string>, k: string)
    ensures k in Chosen(scopeOf, scope, ls, idb, keys) <==> k in keys && Exports(scopeOf, scope, ls, idb, k)
  {
    if keys != [] {
      var init, last := keys[..|keys| - 1], keys[|keys| - 1];
      ChosenMembers(scopeOf, scope, ls, idb, init, k);
      assert keys == init + [last];
    }
  }

  lemma {:induction false} ChosenSorted(scopeOf: ScopeOf, scope: string, ls: Store<string>, idb: Store<IdbDatabase>,
                                        keys: seq<string>)
    requires Sorted(keys)
    ensures Sorted(Chosen(scopeOf, scope, ls, idb, keys))
  {
    if keys != [] {
      var init, last := keys[..|keys| - 1], keys[|keys| - 1];
      ChosenSorted(scopeOf, scope, ls, idb, init);
      var chosen := Chosen(scopeOf, scope, ls, idb, init);
      forall j | 0 <= j < |chosen| ensures LexLess(chosen[j], last) {
        ChosenMembers(scopeOf, scope, ls, idb, init, chosen[j]);
        var i :| 0 <= i < |init| && init[i] == chosen[j];
        assert keys[i] == chosen[j];
      }
    }
  }

  /** One entry for every chosen key, in order. */
  ghost predicate EntriesFor(ls: Store<string>, idb: Store<IdbDatabase>, chosen: seq<string>, st: seq<OriginState>) {
    |st| == |chosen| && forall j | 0 <= j < |st| :: st[j].origin == chosen[j] && EntryRight(ls, idb, st[j])
  }

  lemma EntryAdded(scopeOf: ScopeOf, scope: string, ls: Store<string>, idb: Store<IdbDatabase>,
                   keys: seq<string>, i: nat, st: seq<OriginState>, e: OriginState)
    requires i < |keys| && EntriesFor(ls, idb, Chosen(scopeOf, scope, ls, idb, keys[..i]), st)
    requires Exports(scopeOf, scope, ls, idb, keys[i]) && e.origin == keys[i] && EntryRight(ls, idb, e)
    ensures EntriesFor(ls, idb, Chosen(scopeOf, scope, ls, idb, keys[..i + 1]), st + [e])
  {
    assert keys[..i + 1][..i] == keys[..i];
  }

  lemma EntrySkipped(scopeOf: ScopeOf, scope: string, ls: Store<string>, idb: Store<IdbDatabase>,
                     keys: seq<string>, i: nat, st: seq<OriginState>)
    requires i < |keys| && EntriesFor(ls, idb, Chosen(scopeOf, scope, ls, idb, keys[..i]), st)
    requires !Exports(scopeOf, scope, ls, idb, keys[i])
    ensures EntriesFor(ls, idb, Chosen(scopeOf, scope, ls, idb, keys[..i + 1]), st)
  {
    assert keys[..i + 1][..i] == keys[..i];
    var chosen := Chosen(scopeOf, scope, ls, idb, keys[..i]);
    assert chosen + [] == chosen;
  }

  lemma EntriesForChosen(scopeOf: ScopeOf, scope: string, ls: Store<string>, idb: Store<IdbDatabase>,
                         keys: seq<string>, st: seq<OriginState>)
    requires Sorted(keys) && forall k :: k in ls || k in idb ==> k in keys
    requires EntriesFor(ls, idb, Chosen(scopeOf, scope, ls, idb, keys), st)
    ensures IsExport(scopeOf, scope, ls, idb, st)
  {
    var chosen := Chosen(scopeOf, scope, ls, idb, keys);
    ChosenSorted(scopeOf, scope, ls, idb, keys);
    forall e | e in st ensures Exports(scopeOf, scope, ls, idb, e.origin) && EntryRight(ls, idb, e) {
      var j :| 0 <= j < |st| && st[j] == e;
      ChosenMembers(scopeOf, scope, ls, idb, keys, chosen[j]);
    }
    forall o | Exports(scopeOf, scope, ls, idb, o) ensures exists e :: e in st && e.origin == o {
      ChosenMembers(scopeOf, scope, ls, idb, keys, o);
      var j :| 0 <= j < |chosen| && chosen[j] == o;
      assert st[j] in st;
    }
  }

  method InsertAllEntries(bucket: Bucket<string>, list: seq<(string, string)>) returns (after: Bucket<string>)
    ensures after == InsertEntries(bucket, list)
  {
    after := bucket;
    for k := 0 to |list|
      invariant after == InsertEntries(bucket, list[..k])
    {
      assert list[..k + 1][..k] == list[..k];
      after := after[list[k].0 := list[k].1];
    }
    assert list[..|list|] == list;
  }

  method InsertAllDatabases(bucket: Bucket<IdbDatabase>, dbs: seq<IdbDatabase>) returns (after: Bucket<IdbDatabase>)
    ensures after == InsertDatabases(bucket, dbs)
  {
    after := bucket;
    for k := 0 to |dbs|
      invariant after == InsertDatabases(bucket, dbs[..k])
    {
      assert dbs[..k + 1][..k] == dbs[..k];
      after := after[dbs[k].name := dbs[k]];
    }
    assert dbs[..|dbs|] == dbs;
  }

  class SessionStorage {
    var localStorage: Store<string>
    var indexedDb: Store<IdbDatabase>
    var lastImportOrigin: Option<Origin>

    method OriginEntry(o: Origin) returns (e: OriginState)
      ensures e.origin == o && EntryRight(localStorage, indexedDb, e)
    {
      var entries := ListEntries(BucketOf(localStorage, o));
      var dbs := BucketOf(indexedDb, o);
      var databases := None;
      if dbs != map[] {
        var list := ListDatabases(dbs);
        databases := Some(list);
      }
      e := OriginState(o, entries, databases);
    }

    method ExportStateForScope(scopeOf: ScopeOf, scope: string) returns (st: seq<OriginState>)
      ensures exists lower :: LowersTo(scope, lower) && IsExport(scopeOf, lower, localStorage, indexedDb, st)
      ensures IsExport(scopeOf, AsciiLower(scope), localStorage, indexedDb, st)
    {
      LoweredAscii(scope);
      var lower := AsciiLower(scope);
      var keys := SortedKeys(localStorage.Keys + indexedDb.Keys);
      st := [];
      for i := 0 to |keys|
        invariant EntriesFor(localStorage, indexedDb, Chosen(scopeOf, lower, localStorage, indexedDb, keys[..i]), st)
      {
        var o := keys[i];
        var bucket, dbs := BucketOf(localStorage, o), BucketOf(indexedDb, o);
        if scopeOf(o) == Some(lower) && (bucket != map[] || dbs != map[]) {
          var e := OriginEntry(o);
          EntryAdded(scopeOf, lower, localStorage, indexedDb, keys, i, st, e);
          st := st + [e];
        } else {
          EntrySkipped(scopeOf, lower, localStorage, indexedDb, keys, i, st);
        }
      }
      assert keys[..|keys|] == keys;
      EntriesForChosen(scopeOf, lower, localStorage, indexedDb, keys, st);
    }

    method ImportState(st: seq<OriginState>)
      modifies this
      ensures forall o, key :: EntryMerged(old(localStorage), st, localStorage, o, key)
      ensures forall o, name :: DatabaseMerged(old(indexedDb), st, indexedDb, o, name)
      ensures localStorage == ImportLocal(old(localStorage), st)
      ensures indexedDb == ImportIdb(old(indexedDb), st)
      ensures lastImportOrigin == if st == [] then old(lastImportOrigin) else Some(st[|st| - 1].origin)
    {
      ImportMerges(localStorage, indexedDb, st);
      if st == [] {
        return;
      }
      ImportEntries(st);
      ImportDatabases(st);
      lastImportOrigin := Some(st[|st| - 1].origin);
    }

    method ImportEntries(st: seq<OriginState>)
      modifies this`localStorage
      ensures localStorage == ImportLocal(old(localStorage), st)
    {
      for i := 0 to |st|
        invariant localStorage == ImportLocal(old(localStorage), st[..i])
      {
        assert st[..i + 1][..i] == st[..i];
        var bucket := InsertAllEntries(BucketOf(localStorage, st[i].origin), st[i].localStorage);
        localStorage := localStorage[st[i].origin := bucket];
      }
      assert st[..|st|] == st;
    }

    method ImportDatabases(st: seq<OriginState>)
      modifies this`indexedDb
      ensures indexedDb == ImportIdb(old(indexedDb), st)
    {
      for i := 0 to |st|
        invariant indexedDb == ImportIdb(old(indexedDb), st[..i])
      {
        assert st[..i + 1][..i] == st[..i];
        if st[i].indexedDb.Some? {
          var bucket := InsertAllDatabases(BucketOf(indexedDb, st[i].origin), st[i].indexedDb.value);
          indexedDb := indexedDb[st[i].origin := bucket];
        }
      }
      assert st[..|st|] == st;
    }
  }
}

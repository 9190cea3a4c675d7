/** Grants, revocations and authorizations over one consent log: what one append changes, what each operation
    does on any file and under any write, and what whole runs keep. */
module GrantSafety {
  import opened Text
  import opened ConsentStore
  import opened Policy

  // ---------- one append, on any file ----------

  /** What a reader who saw `before` for this id sees once the line has been read as well. */
  function ReadAfter(line: Line, before: Option<ConsentRecord>, id: string): Option<ConsentRecord> {
    if Grants(line, id) then Some(line.rec) else if Revokes(line, id) then None else before
  }

  /** The grant seen under `id` after appending `line`: an unfinished last line takes the new one with it, and
      nothing is seen of a file that cannot be read. */
  function SeenAfter(file: File, line: Line, io: Io, id: string): Option<ConsentRecord> {
    var kept := GrantWithId(file.lines, id);
    if !Readable(file) || io == Cut(MidCharacter) then None
    else if io.NotOpened? then GrantWithId(View(file), id)
    else if file.tail.Some? || io == Cut(Partway) then kept
    else ReadAfter(line, kept, id)
  }

  lemma ReadOneMore(lines: seq<Line>, line: Line, id: string)
    ensures GrantWithId(lines + [line], id) == ReadAfter(line, GrantWithId(lines, id), id)
  {
    ReplayedAppend(lines, line);
  }

  lemma AppendEffect(file: File, line: Line, io: Io, id: string)
    requires !line.Mangled?
    ensures GrantWithId(View(Append(file, line, io)), id) == SeenAfter(file, line, io, id)
  {
    AppendReadableIff(file, line, io);
    if Readable(file) && (io.Written? || io.Cut?) {
      var added := Merged(file.tail, if io.Written? then line else Reached(line, io.reach));
      assert Contents(Append(file, line, io)) == file.lines + [added];
      ReadOneMore(file.lines, added, id);
    }
  }

  lemma AppendSeen(file: File, line: Line, io: Io)
    requires !line.Mangled?
    ensures forall id :: GrantWithId(View(Append(file, line, io)), id) == SeenAfter(file, line, io, id)
  {
    forall id ensures GrantWithId(View(Append(file, line, io)), id) == SeenAfter(file, line, io, id) {
      AppendEffect(file, line, io, id);
    }
  }

  /** What the complete lines say: only a finished append to a file that ends in a newline adds to it. */
  lemma LinesAfter(file: File, line: Line, io: Io, id: string)
    ensures GrantWithId(Append(file, line, io).lines, id)
         == if io.Written? && file.tail.None? then ReadAfter(line, GrantWithId(file.lines, id), id)
            else GrantWithId(file.lines, id)
  {
    ReadOneMore(file.lines, Merged(file.tail, line), id);
  }

  // ---------- revocations that report success ----------

  /** A tombstone written without error hides its grant if and only if the file cannot be read, ended in a newline,
      or has no complete line that grants the id; other ids keep what complete lines say. */
  lemma RevocationEffectIff(file: File, id: string, other: string)
    ensures var after := View(Append(file, Revoke(id), Written));
            && (GrantWithId(after, id).None? <==>
                  !Readable(file) || file.tail.None? || GrantWithId(file.lines, id).None?)
            && (Readable(file) && other != id ==> GrantWithId(after, other) == GrantWithId(file.lines, other))
  {
    AppendEffect(file, Revoke(id), Written, id);
    AppendEffect(file, Revoke(id), Written, other);
  }

  /** Some tombstone for the id is not swallowed. */
  predicate Hit(file: File, ids: seq<string>, id: string)
    requires ids != []
  {
    id in if file.tail.None? then ids else ids[1..]
  }

  lemma HitGrows(file: File, init: seq<string>, last: string, id: string)
    ensures Hit(file, init + [last], id) <==>
            (init != [] && Hit(file, init, id)) || (id == last && (init != [] || file.tail.None?))
  {
    if init != [] {
      assert (init + [last])[1..] == init[1..] + [last];
    }
  }

  /** `after` is what tombstones for these ids, written without error, make of the file as far as this id is
      concerned: an unfinished last line swallows the first of them. */
  ghost predicate ReplaysAs(file: File, after: File, ids: seq<string>, id: string) {
    && Readable(after)
    && (if ids == [] then after == file else after.tail.None?)
    && GrantWithId(View(after), id)
       == if ids == [] then GrantWithId(View(file), id)
          else if Hit(file, ids, id) then None
          else GrantWithId(file.lines, id)
  }

  lemma OneMoreReplays(file: File, before: File, init: seq<string>, last: string, id: string)
    requires ReplaysAs(file, before, init, id)
    ensures ReplaysAs(file, Append(before, Revoke(last), Written), init + [last], id)
  {
    HitGrows(file, init, last, id);
    AppendEffect(before, Revoke(last), Written, id);
    AppendReadableIff(before, Revoke(last), Written);
  }

  lemma {:induction false} TombstonesReplay(file: File, ids: seq<string>, id: string)
    requires Readable(file)
    ensures ReplaysAs(file, Tombstones(file, ids), ids, id)
  {
    if ids != [] {
      var init, last := ids[..|ids| - 1], ids[|ids| - 1];
      TombstonesReplay(file, init, id);
      var before := Tombstones(file, init);
      OneMoreReplays(file, before, init, last, id);
      assert ids == init + [last] && Tombstones(file, ids) == Append(before, Revoke(last), Written);
    }
  }

  lemma {:induction false} ToRevokeDistinct(parse: OriginParser, q: Query, records: seq<ConsentRecord>)
    requires forall i, j | 0 <= i < j < |records| :: records[i].consentId != records[j].consentId
    ensures Distinct(ToRevoke(parse, q, records))
  {
    if records != [] {
      var init, last := records[..|records| - 1], records[|records| - 1];
      ToRevokeDistinct(parse, q, init);
      var ids := ToRevoke(parse, q, init);
      forall j | 0 <= j < |ids| ensures ids[j] != last.consentId {
        assert ids[j] in ids;
        var rec :| rec in init && Covers(parse, q, rec) && rec.consentId == ids[j];
        var k :| 0 <= k < |init| && init[k] == rec;
        assert records[k] == rec;
      }
    }
  }

  lemma LiveDistinct(lines: seq<Line>)
    ensures forall i, j | 0 <= i < j < |Live(lines)| :: Live(lines)[i].consentId != Live(lines)[j].consentId
  {
    ReplayWellFormed(lines);
    ReplayedKeyedById(lines);
    var order := Replayed(lines).order;
    forall i, j | 0 <= i < j < |Live(lines)| ensures Live(lines)[i].consentId != Live(lines)[j].consentId {
      assert order[i] != order[j] && order[i] in order && order[j] in order;
    }
  }

  lemma CoveredIds(parse: OriginParser, q: Query, lines: seq<Line>, id: string)
    ensures id in ToRevoke(parse, q, Live(lines))
       <==> GrantWithId(lines, id).Some? && Covers(parse, q, GrantWithId(lines, id).value)
  {
    RecordsById(lines, id);
  }

  lemma BehindFirst(ids: seq<string>, id: string)
    requires ids != [] && Distinct(ids)
    ensures id in ids[1..] <==> id in ids && id != ids[0]
  {
    assert ids == [ids[0]] + ids[1..];
    assert forall k | 0 <= k < |ids[1..]| :: ids[1..][k] == ids[k + 1];
  }

  /** Revoking a subject, every write succeeding, on any file. On one that ends in a newline exactly the covered
      grants go. Otherwise the first covered grant keeps what complete lines say, and the others go. */
  lemma RevocationIsExact(parse: OriginParser, q: Query, file: File, id: string)
    ensures var before := GrantWithId(View(file), id);
            var ids := ToRevoke(parse, q, Live(View(file)));
            var after := GrantWithId(View(Tombstones(file, ids)), id);
            && (id in ids <==> before.Some? && Covers(parse, q, before.value))
            && (file.tail.None? || ids == [] ==> after == if id in ids then None else before)
            && (file.tail.Some? && ids != [] ==>
                  after == if id in ids && id != ids[0] then None else GrantWithId(file.lines, id))
  {
    var ids := ToRevoke(parse, q, Live(View(file)));
    if Readable(file) {
      TombstonesReplay(file, ids, id);
    } else {
      assert Live(View(file)) == [];
    }
    CoveredIds(parse, q, View(file), id);
    LiveDistinct(View(file));
    ToRevokeDistinct(parse, q, Live(View(file)));
    if ids != [] {
      BehindFirst(ids, id);
    }
  }

  /** Every covered grant is gone after a successful revocation of the subject if and only if the file ended in a
      newline, nothing was covered, or no complete line grants the first covered id. */
  lemma RevokesAllIff(parse: OriginParser, q: Query, file: File)
    ensures var ids := ToRevoke(parse, q, Live(View(file)));
            (forall id | id in ids :: GrantWithId(View(Tombstones(file, ids)), id).None?) <==>
            file.tail.None? || ids == [] || GrantWithId(file.lines, ids[0]).None?
  {
    var ids := ToRevoke(parse, q, Live(View(file)));
    forall id | id in ids
      ensures GrantWithId(View(Tombstones(file, ids)), id).None? <==>
              file.tail.None? || id != ids[0] || GrantWithId(file.lines, id).None?
    {
      RevocationIsExact(parse, q, file, id);
    }
    assert ids != [] ==> ids[0] in ids;
  }

  /** A run in which a revocation reports success and the grant stays usable: grant, a grant cut short, revoke. */
  lemma LostRevocation(rec: ConsentRecord, other: ConsentRecord, reach: Reach)
    requires rec.consentId != other.consentId && reach != MidCharacter
    ensures var granted := Append(File([], None), Grant(rec), Written);
            var torn := Append(granted, Grant(other), Cut(reach));
            && GrantWithId(View(torn), rec.consentId) == Some(rec)
            && GrantWithId(View(Append(torn, Revoke(rec.consentId), Written)), rec.consentId) == Some(rec)
  {
    var granted := Append(File([], None), Grant(rec), Written);
    AppendEffect(File([], None), Grant(rec), Written, rec.consentId);
    AppendEffect(granted, Grant(other), Cut(reach), rec.consentId);
    AppendReadableIff(granted, Grant(other), Cut(reach));
    AppendEffect(Append(granted, Grant(other), Cut(reach)), Revoke(rec.consentId), Written, rec.consentId);
  }

  // ---------- one authorization, on any file ----------

  predicate AnyUsable(origins: Origins, file: File, req: UseRequest, now: int) {
    exists rec :: rec in Live(View(file)) && Usable(origins.parse, QueryOf(origins, req), now, rec)
  }

  lemma DecisionsExact(origins: Origins, rules: seq<OriginRule>, file: File, req: UseRequest, now: int, io: Io)
    ensures var v := Authorize(origins, rules, file, req, now, io);
            var usable := AnyUsable(origins, file, req, now);
            && (v.decision == Allow <==> Undisputed(rules, req) && usable && io.Written?)
            && (v.decision == RequireConfirmation <==> Undisputed(rules, req) && !usable)
  {
    var active := ActiveFor(origins.parse, QueryOf(origins, req), now, Live(View(file)));
    if active.Some? {
      RecordsById(View(file), active.value.consentId);
    }
  }

  /** The three decisions, exactly; and the log afterwards. A disputed request, or one without a usable grant,
      leaves the log as it was. Otherwise some usable grant is appended with one more use, and the decision is
      Allow, citing it, if that write succeeded, else Deny. */
  lemma AuthorizeEffect(origins: Origins, rules: seq<OriginRule>, file: File, req: UseRequest, now: int, io: Io)
    returns (rec: Option<ConsentRecord>)
    ensures var v := Authorize(origins, rules, file, req, now, io);
            var usable := AnyUsable(origins, file, req, now);
            && (v.decision == Allow <==> Undisputed(rules, req) && usable && io.Written?)
            && (v.decision == RequireConfirmation <==> Undisputed(rules, req) && !usable)
            && (rec.Some? <==> Undisputed(rules, req) && usable)
    ensures var v := Authorize(origins, rules, file, req, now, io);
            match rec
            case None => v.file == file && !v.reason.UsedConsent? && !v.reason.AccountingFailed?
            case Some(used) =>
              && GrantWithId(View(file), used.consentId) == rec
              && Usable(origins.parse, QueryOf(origins, req), now, used)
              && v.reason == (if io.Written? then UsedConsent(used.consentId) else AccountingFailed)
              && v.file == Append(file, Grant(used.(uses := used.uses + 1)), io)
              && forall id :: GrantWithId(View(v.file), id)
                              == SeenAfter(file, Grant(used.(uses := used.uses + 1)), io, id)
  {
    DecisionsExact(origins, rules, file, req, now, io);
    rec := None;
    if Undisputed(rules, req) {
      rec := ActiveFor(origins.parse, QueryOf(origins, req), now, Live(View(file)));
    }
    if rec.Some? {
      RecordsById(View(file), rec.value.consentId);
      AppendSeen(file, Grant(rec.value.(uses := rec.value.uses + 1)), io);
    }
  }

  // ---------- whole runs, any write outcome ----------

  /** A revocation by id appends one tombstone, one of a subject a tombstone per covered grant. */
  datatype Event =
    | GrantEvent(rec: ConsentRecord, io: Io)
    | TombstoneEvent(id: string, io: Io)
    | AuthorizeEvent(rules: seq<OriginRule>, req: UseRequest, now: int, io: Io)

  /** The log, and what an outside observer has noted down about the run so far. */
  datatype State = State(
    file: File,
    granted: map<string, ConsentRecord>,   // as found at the start or as first asked for
    cited: multiset<string>,               // one entry per Allow, the id its reason cites
    lost: multiset<string>,                // those whose count ran into an unfinished line
    cuts: nat)                             // appends cut short, with the one the run may start from

  /** A run may start from any file. */
  function Start(file: File): State {
    var byId := Replayed(file.lines).byId;
    State(file,
          if file.tail.Some? && file.tail.value.Grant? && file.tail.value.rec.consentId !in byId
          then byId[file.tail.value.rec.consentId := file.tail.value.rec] else byId,
          multiset{}, multiset{}, if file.tail.Some? then 1 else 0)
  }

  predicate Mentioned(lines: seq<Line>, id: string) {
    exists k :: 0 <= k < |lines| && Mentions(lines[k], id)
  }

  /** Explicit grants come with fresh ids. */
  predicate Possible(s: State, e: Event) {
    e.GrantEvent? ==> e.rec.consentId !in s.granted && !Mentioned(Contents(s.file), e.rec.consentId)
  }

  function Appended(s: State, line: Line, io: Io): State {
    s.(file := Append(s.file, line, io), cuts := s.cuts + if io.Cut? then 1 else 0)
  }

  function Apply(origins: Origins, s: State, e: Event): State
    requires Possible(s, e)
  {
    match e
    case GrantEvent(rec, io) => Appended(s, Grant(rec), io).(granted := s.granted[rec.consentId := rec])
    case TombstoneEvent(id, io) => Appended(s, Revoke(id), io)
    case AuthorizeEvent(rules, req, now, io) =>
      var v := Authorize(origins, rules, s.file, req, now, io);
      var used := if v.decision == Allow && v.reason.UsedConsent? then multiset{v.reason.id} else multiset{};
      s.(file := v.file,
         cited := s.cited + used,
         lost := s.lost + if s.file.tail.Some? then used else multiset{},
         cuts := s.cuts + if v.reason.AccountingFailed? && io.Cut? then 1 else 0)
  }

  ghost predicate IsRun(origins: Origins, trace: seq<State>, events: seq<Event>) {
    && |trace| == |events| + 1 && trace[0] == Start(trace[0].file)
    && forall i {:trigger events[i]} | 0 <= i < |events| ::
         Possible(trace[i], events[i]) && trace[i + 1] == Apply(origins, trace[i], events[i])
  }

  // ---------- what every event keeps ----------

  /** The complete lines hold the original of each live id with the counts that were not lost added. */
  ghost predicate Accounted(s: State, id: string) {
    var kept := GrantWithId(s.file.lines, id);
    && s.lost[id] <= s.cited[id]
    && (id in s.granted ==> s.cited[id] <= Left(s.granted[id]) + s.lost[id])
    && (id !in s.granted ==> s.cited[id] == 0)
    && (kept.Some? ==>
          && id in s.granted
          && kept.value == s.granted[id].(uses := s.granted[id].uses + (s.cited[id] - s.lost[id])))
    && (s.file.tail.Some? && Grants(s.file.tail.value, id) ==> id in s.granted)
  }

  ghost predicate Inv(s: State) {
    && |s.lost| + (if s.file.tail.Some? then 1 else 0) <= s.cuts
    && forall id :: Accounted(s, id)
  }

  lemma StartInv(file: File)
    ensures Inv(Start(file))
  {
    ReplayedKeyedById(file.lines);
  }

  lemma GrantKeeps(origins: Origins, s: State, e: Event)
    requires Inv(s) && Possible(s, e) && e.GrantEvent?
    ensures Inv(Apply(origins, s, e))
  {
    var s' := Apply(origins, s, e);
    forall id ensures Accounted(s', id) {
      assert Accounted(s, id);
      LinesAfter(s.file, Grant(e.rec), e.io, id);
    }
  }

  lemma TombstoneKeepsEach(s: State, s': State, revoked: string, io: Io, id: string)
    requires Accounted(s, id) && s'.file == Append(s.file, Revoke(revoked), io)
    requires s'.granted == s.granted && s'.cited == s.cited && s'.lost == s.lost
    ensures Accounted(s', id)
  {
    LinesAfter(s.file, Revoke(revoked), io, id);
  }

  lemma TombstoneKeeps(origins: Origins, s: State, e: Event)
    requires Inv(s) && e.TombstoneEvent?
    ensures Inv(Apply(origins, s, e))
  {
    var s' := Apply(origins, s, e);
    forall id ensures Accounted(s', id) {
      assert Accounted(s, id);
      TombstoneKeepsEach(s, s', e.id, e.io, id);
    }
  }

  /** Whoever is seen was granted; on a file that ends in a newline a usable grant is not yet overspent. */
  lemma SeenIsGranted(s: State, rec: ConsentRecord)
    requires Accounted(s, rec.consentId) && GrantWithId(View(s.file), rec.consentId) == Some(rec)
    ensures rec.consentId in s.granted
    ensures s.file.tail.None? && rec.uses < rec.maxUses ==>
              s.cited[rec.consentId] < Left(s.granted[rec.consentId]) + s.lost[rec.consentId]
  {
    if s.file.tail.Some? {
      ReadOneMore(s.file.lines, s.file.tail.value, rec.consentId);
    }
  }

  /** An Allow citing `rec`, or an append of its count that failed. */
  ghost predicate Used(s: State, s': State, rec: ConsentRecord, io: Io) {
    var used := if io.Written? then multiset{rec.consentId} else multiset{};
    && s'.file == Append(s.file, Grant(rec.(uses := rec.uses + 1)), io) && s'.granted == s.granted
    && s'.cited == s.cited + used
    && s'.lost == s.lost + if s.file.tail.Some? then used else multiset{}
  }

  lemma UseKeepsOthers(s: State, s': State, rec: ConsentRecord, io: Io, id: string)
    requires Accounted(s, id) && Used(s, s', rec, io) && id != rec.consentId
    ensures Accounted(s', id)
  {
    LinesAfter(s.file, Grant(rec.(uses := rec.uses + 1)), io, id);
  }

  lemma UseKeepsUsed(s: State, s': State, rec: ConsentRecord, io: Io)
    requires Accounted(s, rec.consentId) && Used(s, s', rec, io)
    requires GrantWithId(View(s.file), rec.consentId) == Some(rec) && rec.uses < rec.maxUses
    ensures Accounted(s', rec.consentId)
  {
    LinesAfter(s.file, Grant(rec.(uses := rec.uses + 1)), io, rec.consentId);
    SeenIsGranted(s, rec);
  }

  lemma UseKeepsInv(s: State, s': State, rec: ConsentRecord, io: Io)
    requires Inv(s) && Used(s, s', rec, io) && s'.cuts == s.cuts + (if io.Cut? then 1 else 0)
    requires GrantWithId(View(s.file), rec.consentId) == Some(rec) && rec.uses < rec.maxUses
    ensures Inv(s')
  {
    forall id ensures Accounted(s', id) {
      assert Accounted(s, id) && Accounted(s, rec.consentId);
      if id == rec.consentId {
        UseKeepsUsed(s, s', rec, io);
      } else {
        UseKeepsOthers(s, s', rec, io, id);
      }
    }
  }

  /** An authorization is the use of one grant, or nothing. */
  lemma AuthorizeUses(origins: Origins, s: State, e: Event) returns (rec: Option<ConsentRecord>)
    requires e.AuthorizeEvent?
    ensures var s' := Apply(origins, s, e);
            match rec
            case None => s' == s
            case Some(used) =>
              && GrantWithId(View(s.file), used.consentId) == rec && used.uses < used.maxUses
              && Used(s, s', used, e.io) && s'.cuts == s.cuts + (if e.io.Cut? then 1 else 0)
  {
    rec := AuthorizeEffect(origins, e.rules, s.file, e.req, e.now, e.io);
    assert s.cited + multiset{} == s.cited && s.lost + multiset{} == s.lost;
  }

  lemma AuthorizeKeeps(origins: Origins, s: State, e: Event)
    requires Inv(s) && e.AuthorizeEvent?
    ensures Inv(Apply(origins, s, e))
  {
    var rec := AuthorizeUses(origins, s, e);
    if rec.Some? {
      UseKeepsInv(s, Apply(origins, s, e), rec.value, e.io);
    }
  }

  lemma {:induction false} RunsKeepInv(origins: Origins, trace: seq<State>, events: seq<Event>, i: nat)
    requires IsRun(origins, trace, events) && i < |trace|
    ensures Inv(trace[i])
  {
    if i == 0 {
      StartInv(trace[0].file);
    } else {
      RunsKeepInv(origins, trace, events, i - 1);
      var s, e := trace[i - 1], events[i - 1];
      assert trace[i - 1 + 1] == Apply(origins, s, e);
      match e
      case GrantEvent(_, _) => GrantKeeps(origins, s, e);
      case TombstoneEvent(_, _) => TombstoneKeeps(origins, s, e);
      case AuthorizeEvent(_, _, _, _) => AuthorizeKeeps(origins, s, e);
    }
  }

  /** Over any run, from any file and whatever happens to its writes, the Allow decisions citing a grant exceed the
      uses it was granted with by at most the counts lost in unfinished lines, and over all grants no more counts
      are lost than appends were cut short: without a cut, no grant is overspent. */
  lemma NeverOverspent(origins: Origins, trace: seq<State>, events: seq<Event>, i: nat, id: string)
    requires IsRun(origins, trace, events) && i < |trace|
    ensures var s := trace[i];
            && s.cited[id] <= (if id in s.granted then Left(s.granted[id]) else 0) + s.lost[id]
            && s.lost <= s.cited && |s.lost| <= s.cuts
            && (s.cuts == 0 ==> s.cited[id] <= if id in s.granted then Left(s.granted[id]) else 0)
  {
    RunsKeepInv(origins, trace, events, i);
    var s := trace[i];
    assert Accounted(s, id);
    forall other ensures s.lost[other] <= s.cited[other] {
      assert Accounted(s, other);
    }
    if s.cuts == 0 {
      assert s.lost == multiset{};
    }
  }

  /** The complete lines tell, for each grant live in them, exactly how many Allows cited it and were not lost. */
  lemma ReplayCountsUses(origins: Origins, trace: seq<State>, events: seq<Event>, i: nat, rec: ConsentRecord)
    requires IsRun(origins, trace, events) && i < |trace| && rec in Live(trace[i].file.lines)
    ensures var s, id := trace[i], rec.consentId;
            && id in s.granted && rec == s.granted[id].(uses := rec.uses)
            && rec.uses == s.granted[id].uses + s.cited[id] - s.lost[id]
  {
    RunsKeepInv(origins, trace, events, i);
    RecordsById(trace[i].file.lines, rec.consentId);
    assert Accounted(trace[i], rec.consentId);
  }

  // ---------- what the observer's notes count ----------

  /** How many of the first `n` positions pass a test. */
  ghost function Passing(test: int -> bool, n: nat): set<int> { set k | 0 <= k < n && test(k) }

  lemma OneMorePassing(test: int -> bool, n: nat)
    ensures |Passing(test, n + 1)| == |Passing(test, n)| + if test(n) then 1 else 0
  {
    assert n !in Passing(test, n);
    assert Passing(test, n + 1) == if test(n) then Passing(test, n) + {n} else Passing(test, n);
  }

  /** Event `k` is an Allow that cites this id. */
  ghost predicate CitesAt(origins: Origins, trace: seq<State>, events: seq<Event>, k: int, id: string) {
    && 0 <= k < |events| && k < |trace| && events[k].AuthorizeEvent?
    && var v := Authorize(origins, events[k].rules, trace[k].file, events[k].req, events[k].now, events[k].io);
       v.decision == Allow && v.reason == UsedConsent(id)
  }

  ghost function Cites(origins: Origins, trace: seq<State>, events: seq<Event>, id: string): int -> bool {
    k => CitesAt(origins, trace, events, k, id)
  }

  /** ... and was made while the last line of the file was unfinished. */
  ghost function Loses(origins: Origins, trace: seq<State>, events: seq<Event>, id: string): int -> bool {
    k => CitesAt(origins, trace, events, k, id) && trace[k].file.tail != None
  }

  ghost function CutsShort(events: seq<Event>): int -> bool {
    k => 0 <= k < |events| && events[k].io.Cut?
  }

  /** The notes are exact: one citation for every Allow citing the id, one of them lost for every one made while the
      last line was unfinished, and no more cuts than writes cut short and the unfinished line at the start. */
  ghost predicate NotesRight(origins: Origins, trace: seq<State>, events: seq<Event>, n: nat, id: string)
    requires n < |trace|
  {
    && trace[n].cited[id] == |Passing(Cites(origins, trace, events, id), n)|
    && trace[n].lost[id] == |Passing(Loses(origins, trace, events, id), n)|
    && trace[n].cuts <= |Passing(CutsShort(events), n)| + if trace[0].file.tail == None then 0 else 1
  }

  ghost predicate StepNoted(origins: Origins, trace: seq<State>, events: seq<Event>, n: nat, id: string)
    requires n < |events| && n + 1 < |trace|
  {
    && trace[n + 1].cited[id] == trace[n].cited[id] + (if CitesAt(origins, trace, events, n, id) then 1 else 0)
    && trace[n + 1].lost[id] == trace[n].lost[id]
         + (if CitesAt(origins, trace, events, n, id) && trace[n].file.tail != None then 1 else 0)
    && trace[n + 1].cuts <= trace[n].cuts + if events[n].io.Cut? then 1 else 0
  }

  lemma NotedStep(origins: Origins, trace: seq<State>, events: seq<Event>, n: nat, id: string)
    requires IsRun(origins, trace, events) && n < |events|
    ensures StepNoted(origins, trace, events, n, id)
  {
    assert trace[n + 1] == Apply(origins, trace[n], events[n]);
  }

  lemma NotesAtStart(origins: Origins, trace: seq<State>, events: seq<Event>, id: string)
    requires trace != [] && trace[0] == Start(trace[0].file)
    ensures NotesRight(origins, trace, events, 0, id)
  {
    assert Passing(Cites(origins, trace, events, id), 0) == {};
    assert Passing(Loses(origins, trace, events, id), 0) == {};
  }

  lemma NotesOneMore(origins: Origins, trace: seq<State>, events: seq<Event>, n: nat, id: string)
    requires n < |events| && n + 1 < |trace| && NotesRight(origins, trace, events, n, id)
    requires StepNoted(origins, trace, events, n, id)
    ensures NotesRight(origins, trace, events, n + 1, id)
  {
    OneMorePassing(Cites(origins, trace, events, id), n);
    OneMorePassing(Loses(origins, trace, events, id), n);
    OneMorePassing(CutsShort(events), n);
  }

  lemma NotesKept(origins: Origins, trace: seq<State>, events: seq<Event>, n: nat, id: string)
    requires IsRun(origins, trace, events) && 0 < n < |trace| && NotesRight(origins, trace, events, n - 1, id)
    ensures NotesRight(origins, trace, events, n, id)
  {
    NotedStep(origins, trace, events, n - 1, id);
    NotesOneMore(origins, trace, events, n - 1, id);
  }

  /** Induction on a property of positions. */
  lemma {:induction false} UpTo(holds: nat -> bool, n: nat)
    requires holds(0) && forall k: nat | 0 < k <= n && holds(k - 1) :: holds(k)
    ensures holds(n)
  {
    if n > 0 {
      UpTo(holds, n - 1);
    }
  }

  lemma NotesAreRight(origins: Origins, trace: seq<State>, events: seq<Event>, n: nat, id: string)
    requires IsRun(origins, trace, events) && n < |trace|
    ensures NotesRight(origins, trace, events, n, id)
  {
    NotesAtStart(origins, trace, events, id);
    forall k: nat | 0 < k <= n && NotesRight(origins, trace, events, k - 1, id)
      ensures NotesRight(origins, trace, events, k, id)
    {
      NotesKept(origins, trace, events, k, id);
    }
    UpTo((k: nat) => k < |trace| && NotesRight(origins, trace, events, k, id), n);
  }

  // ---------- once revoked ----------

  /** Complete lines once spoke of the id and grant it no more, and no unfinished line does. */
  ghost predicate Dead(s: State, id: string) {
    && Mentioned(s.file.lines, id) && GrantWithId(s.file.lines, id).None?
    && (s.file.tail.Some? ==> !Grants(s.file.tail.value, id))
  }

  /** A tombstone that could be appended leaves a granted id dead exactly when it was written, and to a file that
      ended in a newline. */
  lemma RevokedIsDeadIff(origins: Origins, s: State, id: string, io: Io)
    requires GrantWithId(s.file.lines, id).Some?
    ensures Dead(Apply(origins, s, TombstoneEvent(id, io)), id) <==> io.Written? && s.file.tail.None?
  {
    LinesAfter(s.file, Revoke(id), io, id);
    if io.Written? && s.file.tail.None? {
      var lines := Append(s.file, Revoke(id), io).lines;
      assert Mentions(lines[|s.file.lines|], id);
    }
  }

  lemma StaysMentioned(file: File, line: Line, io: Io, id: string)
    requires Mentioned(file.lines, id)
    ensures Mentioned(Append(file, line, io).lines, id)
  {
    var k :| 0 <= k < |file.lines| && Mentions(file.lines[k], id);
    assert Append(file, line, io).lines[k] == file.lines[k];
  }

  /** Appending a line that does not grant the id keeps it dead. */
  lemma StaysDead(s: State, s': State, line: Line, io: Io, id: string)
    requires Dead(s, id) && !Grants(line, id) && s'.file == Append(s.file, line, io)
    ensures Dead(s', id)
  {
    LinesAfter(s.file, line, io, id);
    StaysMentioned(s.file, line, io, id);
  }

  lemma DeadIsUnseen(s: State, id: string)
    requires Dead(s, id)
    ensures GrantWithId(View(s.file), id).None? && Mentioned(Contents(s.file), id)
  {
    if s.file.tail.Some? {
      ReadOneMore(s.file.lines, s.file.tail.value, id);
    }
    var k :| 0 <= k < |s.file.lines| && Mentions(s.file.lines[k], id);
    assert Contents(s.file)[k] == s.file.lines[k];
  }

  lemma DeadStaysUncited(origins: Origins, s: State, e: Event, id: string)
    requires Possible(s, e) && Dead(s, id)
    ensures var s' := Apply(origins, s, e); Dead(s', id) && s'.cited[id] == s.cited[id]
  {
    var s' := Apply(origins, s, e);
    DeadIsUnseen(s, id);
    match e
    case GrantEvent(rec, io) => StaysDead(s, s', Grant(rec), io, id);
    case TombstoneEvent(other, io) => StaysDead(s, s', Revoke(other), io, id);
    case AuthorizeEvent(rules, req, now, io) =>
      var rec := AuthorizeEffect(origins, rules, s.file, req, now, io);
      if rec.Some? {
        StaysDead(s, s', Grant(rec.value.(uses := rec.value.uses + 1)), io, id);
      }
  }

  lemma DeadStep(origins: Origins, trace: seq<State>, events: seq<Event>, k: nat, id: string)
    requires IsRun(origins, trace, events) && k < |events| && Dead(trace[k], id)
    ensures Dead(trace[k + 1], id) && trace[k + 1].cited[id] == trace[k].cited[id]
  {
    assert trace[k + 1] == Apply(origins, trace[k], events[k]);
    DeadStaysUncited(origins, trace[k], events[k], id);
  }

  /** Once dead, an id is never cited again, whatever happens to later writes. */
  lemma {:induction false} NeverCitedAfterRevocation(origins: Origins, trace: seq<State>, events: seq<Event>,
                                                     i: nat, j: nat, id: string)
    requires IsRun(origins, trace, events) && i <= j < |trace| && Dead(trace[i], id)
    ensures Dead(trace[j], id) && trace[j].cited[id] == trace[i].cited[id]
    decreases j
  {
    if i < j {
      NeverCitedAfterRevocation(origins, trace, events, i, j - 1, id);
      DeadStep(origins, trace, events, j - 1, id);
    }
  }
}

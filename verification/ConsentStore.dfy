/** The append-only consent log: what replaying it means, and the store operations over it. */
module ConsentStore {
  import opened Text

  datatype ConsentSubject = Credential(credential: string) | Account(account: string, agent: string)

  datatype ConsentRecord = ConsentRecord(
    consentId: string,
    subject: ConsentSubject,
    origin: string,
    actions: seq<string>,
    grantedAt: int,
    expiresAt: int,
    maxUses: nat,
    uses: nat,
    refTag: Option<string>)

  /** One physical line of the file; `Junk` is text that does not parse, `Mangled` bytes that are not UTF-8. */
  datatype Line = Grant(rec: ConsentRecord) | Revoke(id: string) | Junk | Mangled

  predicate Grants(line: Line, id: string) { line.Grant? && line.rec.consentId == id }
  predicate Revokes(line: Line, id: string) { line.Revoke? && line.id == id }
  predicate Mentions(line: Line, id: string) { Grants(line, id) || Revokes(line, id) }

  // ---------- replay ----------

  /** The two variables of the replay loop. */
  datatype Index = Index(order: seq<string>, byId: map<string, ConsentRecord>)

  function Without(order: seq<string>, id: string): seq<string> {
    if order == [] then []
    else Without(order[..|order| - 1], id) + (if order[|order| - 1] == id then [] else [order[|order| - 1]])
  }

  function Feed(ix: Index, line: Line): Index {
    match line
    case Grant(rec) =>
      Index(if rec.consentId in ix.byId then ix.order else ix.order + [rec.consentId],
            ix.byId[rec.consentId := rec])
    case Revoke(id) =>
      if id in ix.byId then Index(Without(ix.order, id), ix.byId - {id}) else ix
    case _ => ix
  }

  function Replayed(lines: seq<Line>): Index {
    if lines == [] then Index([], map[]) else Feed(Replayed(lines[..|lines| - 1]), lines[|lines| - 1])
  }

  ghost predicate Distinct(order: seq<string>) {
    forall i, j | 0 <= i < j < |order| :: order[i] != order[j]
  }

  ghost predicate WellFormed(ix: Index) {
    Distinct(ix.order) && forall id :: id in ix.order <==> id in ix.byId
  }

  lemma {:induction false} WithoutMember(order: seq<string>, id: string, x: string)
    ensures x in Without(order, id) <==> x in order && x != id
  {
    if order != [] {
      var init, last := order[..|order| - 1], order[|order| - 1];
      WithoutMember(init, id, x);
      assert order == init + [last];
    }
  }

  lemma {:induction false} WithoutDistinct(order: seq<string>, id: string)
    requires Distinct(order)
    ensures Distinct(Without(order, id))
  {
    if order != [] {
      var init, last := order[..|order| - 1], order[|order| - 1];
      WithoutDistinct(init, id);
      WithoutMember(init, id, last);
    }
  }

  lemma FeedKeepsWellFormed(ix: Index, line: Line)
    requires WellFormed(ix)
    ensures WellFormed(Feed(ix, line))
  {
    if line.Revoke? {
      WithoutDistinct(ix.order, line.id);
      forall x { WithoutMember(ix.order, line.id, x); }
    }
  }

  lemma {:induction false} ReplayWellFormed(lines: seq<Line>)
    ensures WellFormed(Replayed(lines))
  {
    if lines != [] {
      ReplayWellFormed(lines[..|lines| - 1]);
      FeedKeepsWellFormed(Replayed(lines[..|lines| - 1]), lines[|lines| - 1]);
    }
  }

  /** The grants in output order. */
  function Records(ix: Index): seq<ConsentRecord>
    requires forall id | id in ix.order :: id in ix.byId
  {
    seq(|ix.order|, i requires 0 <= i < |ix.order| => ix.byId[ix.order[i]])
  }

  function Live(lines: seq<Line>): seq<ConsentRecord> {
    ReplayWellFormed(lines);
    Records(Replayed(lines))
  }

  // ---------- the meaning of a log, without the loop ----------

  /** Index of the last line about this id if that line grants it, else -1. */
  function LastGrant(lines: seq<Line>, id: string): (k: int)
    ensures -1 <= k < |lines|
    ensures k >= 0 ==> Grants(lines[k], id) && forall j | k < j < |lines| :: !Mentions(lines[j], id)
    ensures k < 0 ==> forall j | 0 <= j < |lines| && Grants(lines[j], id) ::
              exists r :: j < r < |lines| && Revokes(lines[r], id)
  {
    if lines == [] then -1
    else if Grants(lines[|lines| - 1], id) then |lines| - 1
    else if Revokes(lines[|lines| - 1], id) then -1
    else
      var k := LastGrant(lines[..|lines| - 1], id);
      assert k < 0 ==> forall j | 0 <= j < |lines| && Grants(lines[j], id) ::
        exists r :: j < r < |lines| && Revokes(lines[r], id) by {
        var init := lines[..|lines| - 1];
        forall j | k < 0 && 0 <= j < |lines| && Grants(lines[j], id)
          ensures exists r :: j < r < |lines| && Revokes(lines[r], id)
        {
          assert Grants(init[j], id);
          var r :| j < r < |init| && Revokes(init[r], id);
          assert Revokes(lines[r], id);
        }
      }
      k
  }

  /** `f` is the first line granting this id since its last tombstone. */
  ghost predicate EnteredAt(lines: seq<Line>, id: string, f: int) {
    && 0 <= f < |lines| && Grants(lines[f], id)
    && (forall j | f < j < |lines| :: !Revokes(lines[j], id))
    && (forall j | 0 <= j < f && Grants(lines[j], id) :: exists r :: j < r < f && Revokes(lines[r], id))
  }

  lemma {:induction false} ReplayedValue(lines: seq<Line>, id: string)
    ensures var k := LastGrant(lines, id);
            && (id in Replayed(lines).byId <==> k >= 0)
            && (k >= 0 ==> Replayed(lines).byId[id] == lines[k].rec)
  {
    if lines != [] {
      ReplayedValue(lines[..|lines| - 1], id);
    }
  }

  /** One more line moves the entry point of an id only when it grants an absent id. */
  lemma EnteredStep(lines: seq<Line>, line: Line, id: string, f: int)
    requires EnteredAt(lines, id, f) && !Revokes(line, id)
    ensures EnteredAt(lines + [line], id, f)
  {
    var longer := lines + [line];
    forall j | 0 <= j < f && Grants(longer[j], id) ensures exists r :: j < r < f && Revokes(longer[r], id) {
      assert Grants(lines[j], id);
      var r :| j < r < f && Revokes(lines[r], id);
      assert Revokes(longer[r], id);
    }
  }

  lemma EnteredNow(lines: seq<Line>, line: Line, id: string)
    requires Grants(line, id) && LastGrant(lines, id) < 0
    ensures EnteredAt(lines + [line], id, |lines|)
  {
    var longer := lines + [line];
    forall j | 0 <= j < |lines| && Grants(longer[j], id) ensures exists r :: j < r < |lines| && Revokes(longer[r], id) {
      assert Grants(lines[j], id);
      var r :| j < r < |lines| && Revokes(lines[r], id);
      assert Revokes(longer[r], id);
    }
  }

  /** The entry points of the output order, one per position. */
  ghost predicate EntryPoints(lines: seq<Line>, order: seq<string>, at: seq<int>) {
    && |at| == |order|
    && (forall i | 0 <= i < |order| :: EnteredAt(lines, order[i], at[i]))
    && (forall i, j | 0 <= i < j < |order| :: at[i] < at[j])
  }

  lemma {:induction false} WithoutEntryPoints(lines: seq<Line>, line: Line, order: seq<string>, at: seq<int>)
      returns (at': seq<int>)
    requires EntryPoints(lines, order, at) && line.Revoke?
    ensures EntryPoints(lines + [line], Without(order, line.id), at')
    ensures forall a | a in at' :: a in at
    decreases |order|
  {
    if order == [] {
      return [];
    }
    var n := |order| - 1;
    at' := WithoutEntryPoints(lines, line, order[..n], at[..n]);
    if order[n] != line.id {
      EnteredStep(lines, line, order[n], at[n]);
      forall i | 0 <= i < |at'| ensures at'[i] < at[n] {
        assert at'[i] in at[..n];
      }
      at' := at' + [at[n]];
    }
  }

  /** The output order is the order of the first grants since each id's last tombstone. */
  lemma {:induction false} ReplayedOrder(lines: seq<Line>) returns (at: seq<int>)
    ensures EntryPoints(lines, Replayed(lines).order, at)
  {
    if lines == [] {
      return [];
    }
    var init, last := lines[..|lines| - 1], lines[|lines| - 1];
    assert lines == init + [last];
    var ix := Replayed(init);
    at := ReplayedOrder(init);
    ReplayWellFormed(init);
    if last.Revoke? && last.id in ix.byId {
      at := WithoutEntryPoints(init, last, ix.order, at);
    } else {
      forall i | 0 <= i < |ix.order| ensures EnteredAt(lines, ix.order[i], at[i]) {
        assert ix.order[i] in ix.byId;
        EnteredStep(init, last, ix.order[i], at[i]);
      }
      if last.Grant? && last.rec.consentId !in ix.byId {
        ReplayedValue(init, last.rec.consentId);
        EnteredNow(init, last, last.rec.consentId);
        at := at + [|init|];
      }
    }
  }

  /** Replay, stated without the loop: each id at most once; an id is present exactly when a grant of it follows
      its last tombstone, with the value of the last such grant; in the order of the first such grants. */
  lemma ReplayMeaning(lines: seq<Line>) returns (at: seq<int>)
    ensures Distinct(Replayed(lines).order)
    ensures forall id :: id in Replayed(lines).order <==> LastGrant(lines, id) >= 0
    ensures |Live(lines)| == |Replayed(lines).order|
    ensures forall i | 0 <= i < |Live(lines)| ::
              var id := Replayed(lines).order[i];
              LastGrant(lines, id) >= 0 && Live(lines)[i] == lines[LastGrant(lines, id)].rec
    ensures EntryPoints(lines, Replayed(lines).order, at)
  {
    ReplayWellFormed(lines);
    at := ReplayedOrder(lines);
    forall id ensures id in Replayed(lines).order <==> LastGrant(lines, id) >= 0 {
      ReplayedValue(lines, id);
    }
    forall i | 0 <= i < |Live(lines)|
      ensures LastGrant(lines, Replayed(lines).order[i]) >= 0
           && Live(lines)[i] == lines[LastGrant(lines, Replayed(lines).order[i])].rec
    {
      ReplayedValue(lines, Replayed(lines).order[i]);
    }
  }

  // ---------- looking up the active grant ----------

  datatype WebOrigin = WebOrigin(scheme: string, host: string, port: nat)

  /** `Origin::parse`, with errors as `None`. */
  type OriginParser = string -> Option<WebOrigin>

  /** What a lookup asks for. */
  datatype Query = Query(subject: ConsentSubject, origin: string, action: string)

  predicate OriginMatches(parse: OriginParser, stored: string, requested: string) {
    parse(stored).Some? && parse(stored) == parse(requested)
  }

  predicate Covers(parse: OriginParser, q: Query, rec: ConsentRecord) {
    rec.subject == q.subject && OriginMatches(parse, rec.origin, q.origin) && q.action in rec.actions
  }

  predicate ActiveAt(rec: ConsentRecord, now: int) { now <= rec.expiresAt && rec.uses < rec.maxUses }

  predicate Usable(parse: OriginParser, q: Query, now: int, rec: ConsentRecord) {
    Covers(parse, q, rec) && ActiveAt(rec, now)
  }

  /** Granted later, or at the same time with the greater id. */
  predicate Newer(a: ConsentRecord, b: ConsentRecord) {
    a.grantedAt > b.grantedAt || (a.grantedAt == b.grantedAt && LexLess(b.consentId, a.consentId))
  }

  lemma NewerIsStrictOrder(a: ConsentRecord, b: ConsentRecord, c: ConsentRecord)
    ensures !Newer(a, a)
    ensures Newer(a, b) && Newer(b, c) ==> Newer(a, c)
    ensures Newer(a, b) || Newer(b, a) || a.consentId == b.consentId
  {
    LexLessIsStrictOrder(a.consentId, b.consentId, c.consentId);
    LexLessIsStrictOrder(c.consentId, b.consentId, a.consentId);
  }

  /** `active_for_subject` on replayed records: the newest usable one. */
  function ActiveFor(parse: OriginParser, q: Query, now: int,
                     records: seq<ConsentRecord>): (best: Option<ConsentRecord>)
    ensures best.Some? ==> best.value in records && Usable(parse, q, now, best.value)
    ensures best.None? ==> forall rec | rec in records :: !Usable(parse, q, now, rec)
  {
    if records == [] then None
    else
      var last := records[|records| - 1];
      var best := ActiveFor(parse, q, now, records[..|records| - 1]);
      assert records == records[..|records| - 1] + [last];
      if !Usable(parse, q, now, last) then best
      else if best.Some? && Newer(best.value, last) then best
      else Some(last)
  }

  lemma ActiveForStep(parse: OriginParser, q: Query, now: int, records: seq<ConsentRecord>, i: nat)
    requires i < |records|
    ensures var best, last := ActiveFor(parse, q, now, records[..i]), records[i];
            ActiveFor(parse, q, now, records[..i + 1])
            == if Usable(parse, q, now, last) && !(best.Some? && Newer(best.value, last)) then Some(last) else best
  {
    assert records[..i + 1][..i] == records[..i];
  }

  /** No usable grant is newer than the one picked. */
  lemma {:induction false} ActiveForIsNewest(parse: OriginParser, q: Query, now: int, records: seq<ConsentRecord>,
                                             rec: ConsentRecord)
    requires rec in records && Usable(parse, q, now, rec)
    ensures ActiveFor(parse, q, now, records).Some?
    ensures !Newer(rec, ActiveFor(parse, q, now, records).value)
  {
    var init, last := records[..|records| - 1], records[|records| - 1];
    assert records == init + [last];
    NewerIsStrictOrder(rec, rec, rec);
    if rec in init {
      ActiveForIsNewest(parse, q, now, init, rec);
      var best := ActiveFor(parse, q, now, init).value;
      if !Newer(best, last) {
        NotNewerChain(rec, best, last);
      }
    } else if ActiveFor(parse, q, now, init).Some? {
      var best := ActiveFor(parse, q, now, init).value;
      NewerIsStrictOrder(last, best, last);
    }
  }

  lemma NotNewerChain(a: ConsentRecord, b: ConsentRecord, c: ConsentRecord)
    requires !Newer(a, b) && !Newer(b, c)
    ensures !Newer(a, c)
  {
    LexLessIsStrictOrder(a.consentId, b.consentId, c.consentId);
    LexLessIsStrictOrder(b.consentId, c.consentId, a.consentId);
    LexLessIsStrictOrder(c.consentId, a.consentId, b.consentId);
    LexLessIsStrictOrder(c.consentId, b.consentId, a.consentId);
  }

  // ---------- the file and its appends ----------

  /** Complete lines, and possibly a last line whose newline was never written. */
  datatype File = File(lines: seq<Line>, tail: Option<Line>)

  /** Everything in the file. */
  function Contents(file: File): seq<Line> {
    if file.tail.None? then file.lines else file.lines + [file.tail.value]
  }

  /** The file is read as one string, so one piece that is no text makes every read fail. */
  predicate Readable(file: File) { Mangled !in file.lines && file.tail != Some(Mangled) }

  /** What a reader of the file sees: nothing if the read fails. */
  function View(file: File): seq<Line> {
    if Readable(file) then Contents(file) else []
  }

  /** How much of a record reached the file before a write was cut short: all of it but the newline, a part of it
      that is text, or a part that ends inside a character of several bytes. */
  datatype Reach = WholeRecord | Partway | MidCharacter

  /** The write of one line: done, refused, or cut short before its newline. */
  datatype Io = Written | NotOpened | Cut(reach: Reach)

  function Reached(line: Line, reach: Reach): Line {
    match reach
    case WholeRecord => line
    case Partway => Junk
    case MidCharacter => Mangled
  }

  /** Text after an unfinished line runs into it: the merged line parses as nothing, and what was no text stays so. */
  function Merged(tail: Option<Line>, line: Line): Line {
    if tail.None? then line else if tail.value.Mangled? || line.Mangled? then Mangled else Junk
  }

  function Append(file: File, line: Line, io: Io): File {
    match io
    case Written => File(file.lines + [Merged(file.tail, line)], None)
    case NotOpened => file
    case Cut(reach) => File(file.lines, Some(Merged(file.tail, Reached(line, reach))))
  }

  /** A successful append adds its line to what readers see if and only if the file could be read and ended in a
      newline. */
  lemma AppendFaithfulIff(file: File, line: Line)
    requires line.Grant? || line.Revoke?
    ensures View(Append(file, line, Written)) == View(file) + [line] <==> Readable(file) && file.tail.None?
  {
    AppendReadableIff(file, line, Written);
    if Readable(file) && file.tail.Some? {
      assert |View(Append(file, line, Written))| < |View(file) + [line]|;
    }
  }

  /** Only a write cut inside a character makes a file unreadable, and no append makes it readable again. */
  lemma AppendReadableIff(file: File, line: Line, io: Io)
    requires !line.Mangled?
    ensures Readable(Append(file, line, io)) <==> Readable(file) && io != Cut(MidCharacter)
  {
    if file.tail.Some? && io.Written? {
      var lines := Append(file, line, io).lines;
      assert lines[|file.lines|] == Merged(file.tail, line);
    }
  }

  lemma ReplayedAppend(lines: seq<Line>, line: Line)
    ensures Replayed(lines + [line]) == Feed(Replayed(lines), line)
  {
    assert (lines + [line])[..|lines|] == lines;
  }

  datatype Outcome = Ok | NotFound | IoFailed

  /** The grant with this id among replayed records. */
  function GrantWithId(lines: seq<Line>, id: string): Option<ConsentRecord> {
    var byId := Replayed(lines).byId;
    if id in byId then Some(byId[id]) else None
  }

  /** `consume`: appends the record with one more use. */
  function Consumed(file: File, id: string, io: Io): (File, Outcome) {
    if !Readable(file) then (file, IoFailed)
    else match GrantWithId(View(file), id)
    case None => (file, NotFound)
    case Some(rec) => (Append(file, Grant(rec.(uses := rec.uses + 1)), io), if io.Written? then Ok else IoFailed)
  }

  /** The ids `revoke_subject` tombstones, in replay order. */
  function ToRevoke(parse: OriginParser, q: Query, records: seq<ConsentRecord>): (ids: seq<string>)
    ensures forall id | id in ids :: exists rec :: rec in records && Covers(parse, q, rec) && rec.consentId == id
    ensures forall rec | rec in records && Covers(parse, q, rec) :: rec.consentId in ids
  {
    if records == [] then []
    else
      var last := records[|records| - 1];
      assert records == records[..|records| - 1] + [last];
      ToRevoke(parse, q, records[..|records| - 1]) + (if Covers(parse, q, last) then [last.consentId] else [])
  }

  function Tombstones(file: File, ids: seq<string>): File {
    if ids == [] then file
    else Append(Tombstones(file, ids[..|ids| - 1]), Revoke(ids[|ids| - 1]), Written)
  }

  /** `ids` are those of the records at these positions, in order, and they are all that concern the query; expired
      and used-up ones are among them. */
  ghost predicate Positions(parse: OriginParser, q: Query, records: seq<ConsentRecord>, ids: seq<string>,
                            at: seq<int>) {
    && |at| == |ids|
    && (forall i | 0 <= i < |at| :: 0 <= at[i] < |records| && records[at[i]].consentId == ids[i])
    && (forall i, j | 0 <= i < j < |at| :: at[i] < at[j])
    && (forall k | 0 <= k < |records| :: Concerns(parse, q, records[k]) <==> k in at)
  }

  ghost predicate RevokesExactly(parse: OriginParser, q: Query, records: seq<ConsentRecord>, ids: seq<string>) {
    exists at :: Positions(parse, q, records, ids, at)
  }

  lemma OnePositionMore(parse: OriginParser, q: Query, init: seq<ConsentRecord>, last: ConsentRecord,
                        ids: seq<string>, at: seq<int>)
    requires Positions(parse, q, init, ids, at)
    ensures Concerns(parse, q, last) ==>
              Positions(parse, q, init + [last], ids + [last.consentId], at + [|init|])
    ensures !Concerns(parse, q, last) ==> Positions(parse, q, init + [last], ids, at)
  {
    var records, grown := init + [last], at + [|init|];
    forall k | 0 <= k < |init| ensures records[k] == init[k] && (k in grown <==> k in at) {}
    assert grown[|at|] == |init|;
  }

  lemma {:induction false} ToRevokeMeaning(parse: OriginParser, q: Query, records: seq<ConsentRecord>)
    ensures RevokesExactly(parse, q, records, ToRevoke(parse, q, records))
  {
    if records == [] {
      assert Positions(parse, q, records, [], []);
    } else {
      var init, last := records[..|records| - 1], records[|records| - 1];
      ToRevokeMeaning(parse, q, init);
      var ids := ToRevoke(parse, q, init);
      var at :| Positions(parse, q, init, ids, at);
      CoversIff(parse, q, last);
      OnePositionMore(parse, q, init, last, ids, at);
      assert records == init + [last] && ids + [] == ids;
    }
  }

  /** Tombstones for the first `done` ids, and the failed append of the next one if there is one. */
  function RevokedUpTo(file: File, ids: seq<string>, done: nat, io: nat -> Io): File
    requires done <= |ids|
  {
    var revoked := Tombstones(file, ids[..done]);
    if done == |ids| then revoked else Append(revoked, Revoke(ids[done]), io(done))
  }

  lemma OneMoreTombstone(file: File, ids: seq<string>, n: nat)
    requires n < |ids|
    ensures Tombstones(file, ids[..n + 1]) == Append(Tombstones(file, ids[..n]), Revoke(ids[n]), Written)
  {
    assert ids[..n + 1][..n] == ids[..n];
  }

  /** Moves the grants out of the map, in order. */
  method TakeInOrder(order: seq<string>, byId: map<string, ConsentRecord>) returns (records: seq<ConsentRecord>)
    requires WellFormed(Index(order, byId))
    ensures records == Records(Index(order, byId))
  {
    records := [];
    var left := byId;
    for i := 0 to |order|
      invariant records == Records(Index(order, byId))[..i]
      invariant forall j | i <= j < |order| :: order[j] in left && left[order[j]] == byId[order[j]]
    {
      records := records + [left[order[i]]];
      left := left - {order[i]};
    }
  }

  /** The grant names the subject, an origin that parses to the same one, and the action. */
  ghost predicate Concerns(parse: OriginParser, q: Query, rec: ConsentRecord) {
    && rec.subject == q.subject
    && (exists o :: parse(rec.origin) == Some(o) && parse(q.origin) == Some(o))
    && (exists i :: 0 <= i < |rec.actions| && rec.actions[i] == q.action)
  }

  /** What the fields of a grant must say for it to be used. */
  ghost predicate GrantFor(parse: OriginParser, q: Query, now: int, rec: ConsentRecord) {
    Concerns(parse, q, rec) && rec.expiresAt >= now && rec.maxUses - rec.uses >= 1
  }

  lemma CoversIff(parse: OriginParser, q: Query, rec: ConsentRecord)
    ensures Covers(parse, q, rec) <==> Concerns(parse, q, rec)
  {
  }

  lemma UsableIff(parse: OriginParser, q: Query, now: int, rec: ConsentRecord)
    ensures Usable(parse, q, now, rec) <==> GrantFor(parse, q, now, rec)
  {
  }

  lemma ActiveForMeaning(parse: OriginParser, q: Query, now: int, lines: seq<Line>)
    ensures var best := ActiveFor(parse, q, now, Live(lines));
            && (best.None? <==> !exists rec :: rec in Live(lines) && GrantFor(parse, q, now, rec))
            && (best.Some? ==> best.value in Live(lines) && GrantFor(parse, q, now, best.value))
            && forall rec | rec in Live(lines) && GrantFor(parse, q, now, rec) && best.Some? ::
                 rec.grantedAt < best.value.grantedAt
                 || (rec.grantedAt == best.value.grantedAt
                     && (rec == best.value || LexLess(rec.consentId, best.value.consentId)))
  {
    var best := ActiveFor(parse, q, now, Live(lines));
    forall rec ensures Usable(parse, q, now, rec) <==> GrantFor(parse, q, now, rec) {
      UsableIff(parse, q, now, rec);
    }
    forall rec | rec in Live(lines) && GrantFor(parse, q, now, rec)
      ensures best.Some?
      ensures rec.grantedAt < best.value.grantedAt
              || (rec.grantedAt == best.value.grantedAt
                  && (rec == best.value || LexLess(rec.consentId, best.value.consentId)))
    {
      ActiveForIsNewest(parse, q, now, Live(lines), rec);
      NewerIsStrictOrder(rec, best.value, rec);
      RecordsById(lines, rec.consentId);
    }
  }

  class ConsentStore {
    var file: File

    constructor ()
      ensures file == File([], None)
    {
      file := File([], None);
    }

    /** The replay loop, if the file can be read. */
    method Replay() returns (records: Option<seq<ConsentRecord>>)
      ensures records == if Readable(file) then Some(Live(View(file))) else None
    {
      if !Readable(file) {
        return None;
      }
      var lines := View(file);
      var order: seq<string> := [];
      var byId: map<string, ConsentRecord> := map[];
      for i := 0 to |lines|
        invariant Index(order, byId) == Replayed(lines[..i])
      {
        assert lines[..i + 1][..i] == lines[..i];
        match lines[i]
        case Grant(rec) =>
          if rec.consentId !in byId {
            order := order + [rec.consentId];
          }
          byId := byId[rec.consentId := rec];
        case Revoke(id) =>
          if id in byId {
            byId := byId - {id};
            order := Without(order, id);
          }
        case _ =>
      }
      assert lines[..|lines|] == lines;
      ReplayWellFormed(lines);
      var taken := TakeInOrder(order, byId);
      records := Some(taken);
    }

    method AddGrant(rec: ConsentRecord, io: Io) returns (outcome: Outcome)
      modifies this
      ensures file == Append(old(file), Grant(rec), io)
      ensures outcome == if io.Written? then Ok else IoFailed
    {
      file := Append(file, Grant(rec), io);
      outcome := if io.Written? then Ok else IoFailed;
    }

    method Consume(id: string, io: Io) returns (outcome: Outcome)
      modifies this
      ensures (file, outcome) == Consumed(old(file), id, io)
    {
      var replayed := Replay();
      if replayed.None? {
        return IoFailed;
      }
      var records := replayed.value;
      ReplayWellFormed(View(file));
      var i := 0;
      while i < |records| && records[i].consentId != id
        invariant i <= |records|
        invariant forall j | 0 <= j < i :: records[j].consentId != id
      {
        i := i + 1;
      }
      RecordsById(View(file), id);
      if i == |records| {
        return NotFound;
      }
      var rec := records[i];
      outcome := AddGrant(rec.(uses := rec.uses + 1), io);
    }

    /** The grant of the subject, at the origin and for the action, that is neither expired nor used up; of several
        the one granted last, and of those granted together the one with the greatest id. */
    method ActiveForSubject(parse: OriginParser, q: Query, now: int) returns (best: Option<ConsentRecord>)
      ensures best == ActiveFor(parse, q, now, Live(View(file)))
      ensures best.None? <==> !exists rec :: rec in Live(View(file)) && GrantFor(parse, q, now, rec)
      ensures best.Some? ==> best.value in Live(View(file)) && GrantFor(parse, q, now, best.value)
      ensures forall rec | rec in Live(View(file)) && GrantFor(parse, q, now, rec) && best.Some? ::
                rec.grantedAt < best.value.grantedAt
                || (rec.grantedAt == best.value.grantedAt
                    && (rec == best.value || LexLess(rec.consentId, best.value.consentId)))
    {
      ActiveForMeaning(parse, q, now, View(file));
      best := None;
      var replayed := Replay();
      if replayed.None? {
        assert Live(View(file)) == [];
        return;
      }
      var records := replayed.value;
      for i := 0 to |records|
        invariant best == ActiveFor(parse, q, now, records[..i])
      {
        ActiveForStep(parse, q, now, records, i);
        if Usable(parse, q, now, records[i]) && !(best.Some? && Newer(best.value, records[i])) {
          best := Some(records[i]);
        }
      }
      assert records[..|records|] == records;
    }

    /** One tombstone for an id that replays, nothing otherwise; an error if the file cannot be read. */
    method RevokeById(id: string, io: Io) returns (outcome: Outcome)
      modifies this
      ensures file == if GrantWithId(View(old(file)), id).None? then old(file) else Append(old(file), Revoke(id), io)
      ensures outcome == if Readable(old(file)) && (GrantWithId(View(old(file)), id).None? || io.Written?)
                         then Ok else IoFailed
    {
      var replayed := Replay();
      if replayed.None? {
        return IoFailed;
      }
      var records := replayed.value;
      RecordsById(View(file), id);
      if forall rec | rec in records :: rec.consentId != id {
        return Ok;
      }
      file := Append(file, Revoke(id), io);
      outcome := if io.Written? then Ok else IoFailed;
    }

    /** One tombstone per id, until an append fails. */
    method AppendTombstones(ids: seq<string>, io: nat -> Io) returns (done: nat)
      modifies this
      ensures done <= |ids| && (forall j: nat | j < done :: io(j).Written?)
      ensures done < |ids| ==> !io(done).Written?
      ensures file == RevokedUpTo(old(file), ids, done, io)
    {
      done := 0;
      while done < |ids|
        invariant done <= |ids| && file == Tombstones(old(file), ids[..done])
        invariant forall j: nat | j < done :: io(j).Written?
      {
        if !io(done).Written? {
          file := Append(file, Revoke(ids[done]), io(done));
          return;
        }
        OneMoreTombstone(old(file), ids, done);
        file := Append(file, Revoke(ids[done]), io(done));
        done := done + 1;
      }
    }

    /** One tombstone per covered grant; stops at the first failed append; an error if the file cannot be read. */
    method RevokeSubject(parse: OriginParser, q: Query, io: nat -> Io) returns (outcome: Outcome, done: nat)
      modifies this
      ensures var ids := ToRevoke(parse, q, Live(View(old(file))));
              && done <= |ids| && (forall j: nat | j < done :: io(j).Written?)
              && (outcome == if Readable(old(file)) && done == |ids| then Ok else IoFailed)
              && (done < |ids| ==> !io(done).Written?)
              && file == RevokedUpTo(old(file), ids, done, io)
              && RevokesExactly(parse, q, Live(View(old(file))), ids)
    {
      ToRevokeMeaning(parse, q, Live(View(file)));
      var replayed := Replay();
      if replayed.None? {
        assert Live(View(file)) == [];
        return IoFailed, 0;
      }
      var ids := ToRevoke(parse, q, replayed.value);
      done := AppendTombstones(ids, io);
      outcome := if done == |ids| then Ok else IoFailed;
    }
  }

  /** Every replayed grant sits under its own id. */
  lemma {:induction false} ReplayedKeyedById(lines: seq<Line>)
    ensures forall id | id in Replayed(lines).byId :: Replayed(lines).byId[id].consentId == id
  {
    if lines != [] {
      ReplayedKeyedById(lines[..|lines| - 1]);
    }
  }

  lemma RecordsById(lines: seq<Line>, id: string)
    ensures forall rec | rec in Live(lines) :: rec.consentId == id ==> GrantWithId(lines, id) == Some(rec)
    ensures GrantWithId(lines, id).Some? ==>
              GrantWithId(lines, id).value in Live(lines) && GrantWithId(lines, id).value.consentId == id
  {
    ReplayWellFormed(lines);
    ReplayedKeyedById(lines);
    var ix := Replayed(lines);
    if id in ix.byId {
      var i :| 0 <= i < |ix.order| && ix.order[i] == id;
      assert Live(lines)[i] == ix.byId[id];
    }
  }
}

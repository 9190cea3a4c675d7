/** The deny -> consent -> confirm gate over the consent log. */
module Policy {
  import opened Text
  import opened ConsentStore
  import CredentialHandles

  datatype CredentialAction = Login | Mfa | FillApiKey {
    function AsStr(): string {
      match this
      case Login => "login"
      case Mfa => "mfa"
      case FillApiKey => "fill-api-key"
    }
  }

  datatype UseRequest = UseRequest(
    credential: string,
    topLevel: WebOrigin,
    frame: Option<WebOrigin>,
    action: CredentialAction,
    valueFingerprint: Option<string>)

  datatype RuleMode = AllowRule | DenyRule
  datatype OriginRule = OriginRule(origin: WebOrigin, mode: RuleMode)

  datatype Reason =
    | RuleHit(origin: WebOrigin)
    | PasskeyUndefined
    | UsedConsent(id: string)
    | AccountingFailed
    | NoActiveConsent
    | Confirmed

  datatype Decision = Allow | RequireConfirmation | Deny

  /** `credential_use` audit line. */
  datatype AuditLine = AuditLine(decision: Decision, reason: Reason, request: UseRequest)

  /** Parsing and printing of origins. */
  datatype Origins = Origins(parse: OriginParser, show: WebOrigin -> string)

  function QueryOf(origins: Origins, req: UseRequest): Query {
    Query(Credential(req.credential), origins.show(req.topLevel), req.action.AsStr())
  }

  predicate RuleApplies(rule: OriginRule, req: UseRequest) {
    rule.mode.DenyRule? && (rule.origin == req.topLevel || req.frame == Some(rule.origin))
  }

  /** The first deny rule over the top-level or frame origin. */
  function DenyHit(rules: seq<OriginRule>, req: UseRequest): (hit: Option<WebOrigin>)
    ensures hit.Some? <==> exists r :: r in rules && RuleApplies(r, req)
  {
    if rules == [] then None
    else if RuleApplies(rules[0], req) then Some(rules[0].origin)
    else DenyHit(rules[1..], req)
  }

  predicate IsPasskey(handle: string) {
    var parts := CredentialHandles.Parse(handle);
    parts.Some? && parts.value.kind.Passkey?
  }

  datatype Verdict = Verdict(decision: Decision, reason: Reason, file: File)

  /** `authorize_use_at`: the decision, its audit reason and the file afterwards. */
  function Authorize(origins: Origins, rules: seq<OriginRule>, file: File, req: UseRequest, now: int, io: Io): Verdict {
    var hit := DenyHit(rules, req);
    if hit.Some? then Verdict(Deny, RuleHit(hit.value), file)
    else if IsPasskey(req.credential) then Verdict(Deny, PasskeyUndefined, file)
    else
      match ActiveFor(origins.parse, QueryOf(origins, req), now, Live(View(file)))
      case None => Verdict(RequireConfirmation, NoActiveConsent, file)
      case Some(rec) =>
        var (file', outcome) := Consumed(file, rec.consentId, io);
        if outcome.Ok? then Verdict(Allow, UsedConsent(rec.consentId), file')
        else Verdict(Deny, AccountingFailed, file')
  }

  /** A live grant names the credential, is for the printed top-level origin and the action, and has a use left. */
  ghost predicate HasGrant(origins: Origins, req: UseRequest, now: int, rec: ConsentRecord) {
    && rec.subject == Credential(req.credential)
    && (exists o :: origins.parse(rec.origin) == Some(o) && origins.parse(origins.show(req.topLevel)) == Some(o))
    && (match req.action
        case Login => "login" in rec.actions
        case Mfa => "mfa" in rec.actions
        case FillApiKey => "fill-api-key" in rec.actions)
    && now <= rec.expiresAt && rec.uses < rec.maxUses
  }

  /** Rule `i` is the first that denies: it has deny mode and the top-level or the frame origin. */
  ghost predicate FirstDenying(rules: seq<OriginRule>, req: UseRequest, i: int) {
    && 0 <= i < |rules|
    && rules[i].mode == DenyRule && (rules[i].origin == req.topLevel || Some(rules[i].origin) == req.frame)
    && forall j | 0 <= j < i ::
         rules[j].mode == DenyRule ==> rules[j].origin != req.topLevel && Some(rules[j].origin) != req.frame
  }

  ghost predicate NoneDenies(rules: seq<OriginRule>, req: UseRequest) {
    forall r | r in rules && r.mode == DenyRule :: r.origin != req.topLevel && Some(r.origin) != req.frame
  }

  ghost predicate NamesPasskey(handle: string) {
    exists parts :: CredentialHandles.Parse(handle) == Some(parts) && parts.kind == CredentialHandles.Passkey
  }

  lemma {:induction false} DenyHitMeaning(rules: seq<OriginRule>, req: UseRequest)
    ensures DenyHit(rules, req).None? <==> NoneDenies(rules, req)
    ensures DenyHit(rules, req).Some? ==>
              exists i :: FirstDenying(rules, req, i) && DenyHit(rules, req).value == rules[i].origin
  {
    if rules == [] {
    } else if RuleApplies(rules[0], req) {
      assert FirstDenying(rules, req, 0) && rules[0] in rules;
    } else {
      var rest := rules[1..];
      DenyHitMeaning(rest, req);
      assert rules == [rules[0]] + rest;
      if DenyHit(rest, req).Some? {
        var i :| FirstDenying(rest, req, i) && DenyHit(rest, req).value == rest[i].origin;
        forall j | 0 <= j < i + 1
          ensures rules[j].mode == DenyRule ==> rules[j].origin != req.topLevel && Some(rules[j].origin) != req.frame
        {
          if j > 0 {
            assert rules[j] == rest[j - 1];
          }
        }
        assert FirstDenying(rules, req, i + 1);
      }
    }
  }

  lemma GrantIff(origins: Origins, req: UseRequest, now: int, rec: ConsentRecord)
    ensures GrantFor(origins.parse, QueryOf(origins, req), now, rec) <==> HasGrant(origins, req, now, rec)
  {
  }

  /** Every decision, its audit reason and the log afterwards, field by field. */
  ghost predicate Decides(origins: Origins, rules: seq<OriginRule>, file: File, req: UseRequest, now: int, io: Io,
                          decision: Decision, reason: Reason, file': File) {
    var live := Live(View(file));
    if !NoneDenies(rules, req) then
      decision == Deny && file' == file
      && exists i :: FirstDenying(rules, req, i) && reason == RuleHit(rules[i].origin)
    else if NamesPasskey(req.credential) then
      decision == Deny && reason == PasskeyUndefined && file' == file
    else if !Granted(origins, live, req, now) then
      decision == RequireConfirmation && reason == NoActiveConsent && file' == file
    else
      exists rec :: UsesNewest(origins, live, req, now, rec) && Spends(file, rec, io, decision, reason, file')
  }

  ghost predicate Granted(origins: Origins, live: seq<ConsentRecord>, req: UseRequest, now: int) {
    exists rec :: rec in live && HasGrant(origins, req, now, rec)
  }

  /** One more use is written under the grant, and allowed if the write succeeds. */
  ghost predicate Spends(file: File, rec: ConsentRecord, io: Io, decision: Decision, reason: Reason, file': File) {
    && file' == Append(file, Grant(rec.(uses := rec.uses + 1)), io)
    && decision == (if io == Written then Allow else Deny)
    && reason == (if io == Written then UsedConsent(rec.consentId) else AccountingFailed)
  }

  /** A live grant that may be used; no other such grant was given later, or together with a greater id. */
  ghost predicate UsesNewest(origins: Origins, live: seq<ConsentRecord>, req: UseRequest, now: int,
                             rec: ConsentRecord) {
    && rec in live && HasGrant(origins, req, now, rec)
    && forall other | other in live && HasGrant(origins, req, now, other) ::
         other.grantedAt < rec.grantedAt
         || (other.grantedAt == rec.grantedAt && (other == rec || LexLess(other.consentId, rec.consentId)))
  }

  lemma NewestMeaning(origins: Origins, lines: seq<Line>, req: UseRequest, now: int)
    ensures match ActiveFor(origins.parse, QueryOf(origins, req), now, Live(lines))
            case None => !Granted(origins, Live(lines), req, now)
            case Some(best) =>
              Granted(origins, Live(lines), req, now) && UsesNewest(origins, Live(lines), req, now, best)
  {
    ActiveForMeaning(origins.parse, QueryOf(origins, req), now, lines);
    forall rec
      ensures GrantFor(origins.parse, QueryOf(origins, req), now, rec) <==> HasGrant(origins, req, now, rec)
    {
      GrantIff(origins, req, now, rec);
    }
  }

  /** Nothing denies, and no grant is found: nothing is used. */
  lemma UnservedMeaning(origins: Origins, rules: seq<OriginRule>, file: File, req: UseRequest, now: int, io: Io)
    requires NoneDenies(rules, req) && !NamesPasskey(req.credential)
    requires ActiveFor(origins.parse, QueryOf(origins, req), now, Live(View(file))).None?
    ensures Decides(origins, rules, file, req, now, io, RequireConfirmation, NoActiveConsent, file)
  {
    NewestMeaning(origins, View(file), req, now);
  }

  /** Nothing denies, and a grant is found: it is used. */
  lemma UsedMeaning(origins: Origins, rules: seq<OriginRule>, file: File, req: UseRequest, now: int, io: Io,
                    rec: ConsentRecord)
    requires NoneDenies(rules, req) && !NamesPasskey(req.credential)
    requires ActiveFor(origins.parse, QueryOf(origins, req), now, Live(View(file))) == Some(rec)
    ensures Decides(origins, rules, file, req, now, io, if io == Written then Allow else Deny,
                    if io == Written then UsedConsent(rec.consentId) else AccountingFailed,
                    Append(file, Grant(rec.(uses := rec.uses + 1)), io))
  {
    NewestMeaning(origins, View(file), req, now);
    var decision, reason := if io == Written then Allow else Deny,
                            if io == Written then UsedConsent(rec.consentId) else AccountingFailed;
    assert Spends(file, rec, io, decision, reason, Append(file, Grant(rec.(uses := rec.uses + 1)), io));
  }

  /** A live record is found under its id, and the line written is that record with one more use. */
  lemma ConsumedMeaning(file: File, rec: ConsentRecord, io: Io)
    requires rec in Live(View(file))
    ensures Consumed(file, rec.consentId, io).0 == Append(file, Grant(rec.(uses := rec.uses + 1)), io)
    ensures Consumed(file, rec.consentId, io).1.Ok? <==> io == Written
  {
    RecordsById(View(file), rec.consentId);
  }

  lemma AuthorizeMeaning(origins: Origins, rules: seq<OriginRule>, file: File, req: UseRequest, now: int, io: Io)
    ensures var v := Authorize(origins, rules, file, req, now, io);
            Decides(origins, rules, file, req, now, io, v.decision, v.reason, v.file)
  {
    DenyHitMeaning(rules, req);
    var best := ActiveFor(origins.parse, QueryOf(origins, req), now, Live(View(file)));
    if !NoneDenies(rules, req) || NamesPasskey(req.credential) {
    } else if best.None? {
      UnservedMeaning(origins, rules, file, req, now, io);
    } else {
      UsedMeaning(origins, rules, file, req, now, io, best.value);
      ConsumedMeaning(file, best.value, io);
    }
  }

  /** Allow, exactly. */
  lemma AllowIff(origins: Origins, rules: seq<OriginRule>, file: File, req: UseRequest, now: int, io: Io)
    ensures Authorize(origins, rules, file, req, now, io).decision == Allow <==>
            && NoneDenies(rules, req) && !NamesPasskey(req.credential) && io == Written
            && exists rec :: rec in Live(View(file)) && HasGrant(origins, req, now, rec)
  {
    AuthorizeMeaning(origins, rules, file, req, now, io);
  }

  class PolicyEngine {
    var denyRules: seq<OriginRule>
    const consents: ConsentStore
    var audit: seq<AuditLine>

    constructor (rules: seq<OriginRule>, consents: ConsentStore)
      ensures denyRules == rules && this.consents == consents && audit == []
    {
      denyRules := rules;
      this.consents := consents;
      audit := [];
    }

    /** A failed audit write is only warned about. */
    method Log(req: UseRequest, decision: Decision, reason: Reason, recorded: bool)
      modifies this`audit
      ensures audit == old(audit) + if recorded then [AuditLine(decision, reason, req)] else []
    {
      if recorded {
        audit := audit + [AuditLine(decision, reason, req)];
      }
    }

    method FirstDenyHit(req: UseRequest) returns (hit: Option<WebOrigin>)
      ensures hit == DenyHit(denyRules, req)
    {
      var i := 0;
      assert denyRules[0..] == denyRules;
      while i < |denyRules|
        invariant i <= |denyRules| && DenyHit(denyRules, req) == DenyHit(denyRules[i..], req)
      {
        if RuleApplies(denyRules[i], req) {
          return Some(denyRules[i].origin);
        }
        assert denyRules[i..][1..] == denyRules[i + 1..];
        i := i + 1;
      }
      hit := None;
    }

    method AuthorizeUseAt(origins: Origins, req: UseRequest, now: int, io: Io, recorded: bool)
      returns (decision: Decision)
      modifies this`audit, consents
      ensures var v := Authorize(origins, denyRules, old(consents.file), req, now, io);
              && decision == v.decision && consents.file == v.file
              && audit == old(audit) + (if recorded then [AuditLine(v.decision, v.reason, req)] else [])
              && Decides(origins, denyRules, old(consents.file), req, now, io, decision, v.reason, consents.file)
    {
      AuthorizeMeaning(origins, denyRules, consents.file, req, now, io);
      var hit := FirstDenyHit(req);
      if hit.Some? {
        Log(req, Deny, RuleHit(hit.value), recorded);
        return Deny;
      }
      if IsPasskey(req.credential) {
        Log(req, Deny, PasskeyUndefined, recorded);
        return Deny;
      }
      var active := consents.ActiveForSubject(origins.parse, QueryOf(origins, req), now);
      match active
      case None =>
        Log(req, RequireConfirmation, NoActiveConsent, recorded);
        return RequireConfirmation;
      case Some(rec) =>
        var outcome := consents.Consume(rec.consentId, io);
        if outcome.Ok? {
          Log(req, Allow, UsedConsent(rec.consentId), recorded);
          return Allow;
        }
        Log(req, Deny, AccountingFailed, recorded);
        return Deny;
    }

    /** The non-consuming pre-check. */
    method Preflight(origins: Origins, req: UseRequest, now: int) returns (ok: bool)
      ensures ok <==> NoneDenies(denyRules, req)
                      && exists rec :: rec in Live(View(consents.file)) && HasGrant(origins, req, now, rec)
    {
      DenyHitMeaning(denyRules, req);
      var hit := FirstDenyHit(req);
      if hit.Some? {
        return false;
      }
      var active := consents.ActiveForSubject(origins.parse, QueryOf(origins, req), now);
      NewestMeaning(origins, View(consents.file), req, now);
      ok := active.Some?;
    }
  }

  // ---------- the budget of one request ----------

  function Left(rec: ConsentRecord): nat { if rec.uses < rec.maxUses then rec.maxUses - rec.uses else 0 }

  /** Uses left over all unexpired grants that cover the query. */
  function Budget(parse: OriginParser, q: Query, now: int, records: seq<ConsentRecord>): nat {
    if records == [] then 0
    else
      var last := records[|records| - 1];
      Budget(parse, q, now, records[..|records| - 1])
      + if Covers(parse, q, last) && now <= last.expiresAt then Left(last) else 0
  }

  lemma {:induction false} BudgetZeroIff(parse: OriginParser, q: Query, now: int, records: seq<ConsentRecord>)
    ensures Budget(parse, q, now, records) == 0 <==> ActiveFor(parse, q, now, records).None?
  {
    if records != [] {
      BudgetZeroIff(parse, q, now, records[..|records| - 1]);
    }
  }

  /** Using a usable grant once takes exactly one from the budget. */
  lemma {:induction false} BudgetUsed(parse: OriginParser, q: Query, now: int, records: seq<ConsentRecord>, i: nat)
    requires i < |records| && Usable(parse, q, now, records[i])
    ensures Budget(parse, q, now, records[i := records[i].(uses := records[i].uses + 1)])
         == Budget(parse, q, now, records) - 1
    decreases |records|
  {
    var n := |records| - 1;
    var used := records[i].(uses := records[i].uses + 1);
    if i == n {
      assert records[i := used][..n] == records[..n];
    } else {
      BudgetUsed(parse, q, now, records[..n], i);
      assert records[i := used][..n] == records[..n][i := used];
    }
  }

  /** Consuming a replayed grant changes that one record, in place, and nothing else. */
  lemma ConsumeReplays(lines: seq<Line>, rec: ConsentRecord) returns (i: nat)
    requires rec in Live(lines)
    ensures i < |Live(lines)| && Live(lines)[i] == rec
    ensures GrantWithId(lines, rec.consentId) == Some(rec)
    ensures var used := rec.(uses := rec.uses + 1);
            Live(lines + [Grant(used)]) == Live(lines)[i := used]
  {
    var used := rec.(uses := rec.uses + 1);
    var ix, ix' := Replayed(lines), Replayed(lines + [Grant(used)]);
    RecordsById(lines, rec.consentId);
    ReplayedAppend(lines, Grant(used));
    ReplayWellFormed(lines);
    ReplayWellFormed(lines + [Grant(used)]);
    assert ix'.order == ix.order;
    i :| 0 <= i < |ix.order| && ix.order[i] == rec.consentId;
    forall j | 0 <= j < |ix.order| ensures Live(lines + [Grant(used)])[j] == Live(lines)[i := used][j] {}
  }

  /** No deny rule, not a passkey: the request is decided by its grants alone. */
  predicate Undisputed(rules: seq<OriginRule>, req: UseRequest) {
    DenyHit(rules, req).None? && !IsPasskey(req.credential)
  }

  function BudgetIn(origins: Origins, lines: seq<Line>, req: UseRequest, now: int): nat {
    Budget(origins.parse, QueryOf(origins, req), now, Live(lines))
  }

  /** Without a usable grant nothing happens to the log. */
  lemma NothingToSpend(origins: Origins, rules: seq<OriginRule>, file: File, req: UseRequest, now: int)
    requires Undisputed(rules, req) && BudgetIn(origins, View(file), req, now) == 0
    ensures Authorize(origins, rules, file, req, now, Written) == Verdict(RequireConfirmation, NoActiveConsent, file)
  {
    BudgetZeroIff(origins.parse, QueryOf(origins, req), now, Live(View(file)));
  }

  /** Counting one use of a usable grant takes one from the budget. */
  lemma CountedUse(origins: Origins, lines: seq<Line>, req: UseRequest, now: int, rec: ConsentRecord)
    requires rec in Live(lines) && Usable(origins.parse, QueryOf(origins, req), now, rec)
    ensures BudgetIn(origins, lines + [Grant(rec.(uses := rec.uses + 1))], req, now)
         == BudgetIn(origins, lines, req, now) - 1
  {
    var i := ConsumeReplays(lines, rec);
    BudgetUsed(origins.parse, QueryOf(origins, req), now, Live(lines), i);
  }

  lemma AllowedByGrant(origins: Origins, rules: seq<OriginRule>, file: File, req: UseRequest, now: int)
    returns (rec: ConsentRecord)
    requires Undisputed(rules, req) && BudgetIn(origins, View(file), req, now) > 0
    ensures rec in Live(View(file)) && Usable(origins.parse, QueryOf(origins, req), now, rec)
    ensures Authorize(origins, rules, file, req, now, Written)
         == Verdict(Allow, UsedConsent(rec.consentId), Append(file, Grant(rec.(uses := rec.uses + 1)), Written))
  {
    BudgetZeroIff(origins.parse, QueryOf(origins, req), now, Live(View(file)));
    rec := ActiveFor(origins.parse, QueryOf(origins, req), now, Live(View(file))).value;
    RecordsById(View(file), rec.consentId);
    assert GrantWithId(View(file), rec.consentId) == Some(rec);
  }

  /** While the budget lasts the decision is Allow; on a file that ends in a newline it takes one from it. */
  lemma AuthorizeSpendsOne(origins: Origins, rules: seq<OriginRule>, file: File, req: UseRequest, now: int)
    requires Undisputed(rules, req) && BudgetIn(origins, View(file), req, now) > 0
    ensures var v := Authorize(origins, rules, file, req, now, Written);
            && v.decision == Allow && v.file.tail.None?
            && (file.tail.None? ==>
                  BudgetIn(origins, v.file.lines, req, now) == BudgetIn(origins, View(file), req, now) - 1)
            && (file.tail.Some? ==> v.file.lines == file.lines + [Junk])
  {
    var rec := AllowedByGrant(origins, rules, file, req, now);
    if file.tail.None? {
      CountedUse(origins, file.lines, req, now, rec);
    }
  }

  function Repeat<S>(step: S -> S, s: S, n: nat): S {
    if n == 0 then s else step(Repeat(step, s, n - 1))
  }

  /** The file after the same request was made `n` times. */
  function After(origins: Origins, rules: seq<OriginRule>, file: File, req: UseRequest, now: int, n: nat): File {
    Repeat(f => Authorize(origins, rules, f, req, now, Written).file, file, n)
  }

  /** The decision on the request made for the `n`-th time, counting from 0. */
  function DecisionAt(origins: Origins, rules: seq<OriginRule>, file: File, req: UseRequest, now: int,
                      n: nat): Decision
  {
    Authorize(origins, rules, After(origins, rules, file, req, now, n), req, now, Written).decision
  }

  /** How often the request will be allowed: its budget, which is empty if the file cannot be read; but an
      unfinished last line swallows the first count and is lost with it. */
  function Allowance(origins: Origins, file: File, req: UseRequest, now: int): nat {
    var budget := BudgetIn(origins, View(file), req, now);
    if file.tail.Some? && budget > 0 then 1 + BudgetIn(origins, file.lines, req, now) else budget
  }

  lemma AllowanceStep(origins: Origins, rules: seq<OriginRule>, file: File, req: UseRequest, now: int)
    requires Undisputed(rules, req)
    ensures var v := Authorize(origins, rules, file, req, now, Written);
            var left := Allowance(origins, file, req, now);
            && Allowance(origins, v.file, req, now) == (if left > 0 then left - 1 else 0)
            && v.decision == if left > 0 then Allow else RequireConfirmation
  {
    if BudgetIn(origins, View(file), req, now) == 0 {
      NothingToSpend(origins, rules, file, req, now);
    } else {
      AuthorizeSpendsOne(origins, rules, file, req, now);
      ReplayedAppend(file.lines, Junk);
    }
  }

  lemma {:induction false} Countdown<S(!new)>(step: S -> S, left: S -> nat, s: S, n: nat)
    requires forall x :: left(step(x)) == if left(x) > 0 then left(x) - 1 else 0
    ensures left(Repeat(step, s, n)) == if n < left(s) then left(s) - n else 0
  {
    if n > 0 {
      Countdown(step, left, s, n - 1);
    }
  }

  lemma AllowanceSpent(origins: Origins, rules: seq<OriginRule>, file: File, req: UseRequest, now: int, n: nat)
    requires Undisputed(rules, req)
    ensures var total := Allowance(origins, file, req, now);
            Allowance(origins, After(origins, rules, file, req, now, n), req, now) == if n < total then total - n else 0
  {
    var step := f => Authorize(origins, rules, f, req, now, Written).file;
    var left := f => Allowance(origins, f, req, now);
    forall f: File ensures left(step(f)) == if left(f) > 0 then left(f) - 1 else 0 {
      AllowanceStep(origins, rules, f, req, now);
    }
    Countdown(step, left, file, n);
  }

  /** Repeating one request gives Allow exactly for the first `Allowance` times, then asks for confirmation for ever. */
  lemma RepeatedRequest(origins: Origins, rules: seq<OriginRule>, file: File, req: UseRequest, now: int, n: nat)
    requires Undisputed(rules, req)
    ensures DecisionAt(origins, rules, file, req, now, n)
         == if n < Allowance(origins, file, req, now) then Allow else RequireConfirmation
  {
    AllowanceSpent(origins, rules, file, req, now, n);
    AllowanceStep(origins, rules, After(origins, rules, file, req, now, n), req, now);
  }

  /** On a file that ends in a newline the budget is exact. */
  lemma BudgetIsExact(origins: Origins, rules: seq<OriginRule>, file: File, req: UseRequest, now: int, n: nat)
    requires Undisputed(rules, req) && file.tail.None?
    ensures DecisionAt(origins, rules, file, req, now, n) == Allow
       <==> n < Budget(origins.parse, QueryOf(origins, req), now, Live(View(file)))
    ensures DecisionAt(origins, rules, file, req, now, n) != Deny
  {
    RepeatedRequest(origins, rules, file, req, now, n);
  }

  /** One append cut inside a character, on any file, and nothing is ever allowed again, whatever is written later:
      every undisputed request asks for confirmation. */
  lemma BadCutStopsAll(origins: Origins, rules: seq<OriginRule>, file: File, line: Line, later: seq<(Line, Io)>,
                       req: UseRequest, now: int, n: nat)
    requires !line.Mangled? && (forall a | a in later :: !a.0.Mangled?) && Undisputed(rules, req)
    ensures var broken := AppendAll(Append(file, line, Cut(MidCharacter)), later);
            && !Readable(broken) && Allowance(origins, broken, req, now) == 0
            && DecisionAt(origins, rules, broken, req, now, n) == RequireConfirmation
            && After(origins, rules, broken, req, now, n) == broken
  {
    AppendReadableIff(file, line, Cut(MidCharacter));
    StaysUnreadable(Append(file, line, Cut(MidCharacter)), later);
    var broken := AppendAll(Append(file, line, Cut(MidCharacter)), later);
    RepeatedRequest(origins, rules, broken, req, now, n);
    NothingToSpend(origins, rules, broken, req, now);
    FixedPoint(f => Authorize(origins, rules, f, req, now, Written).file, broken, n);
  }

  function AppendAll(file: File, appends: seq<(Line, Io)>): File {
    if appends == [] then file
    else
      var (line, io) := appends[|appends| - 1];
      Append(AppendAll(file, appends[..|appends| - 1]), line, io)
  }

  lemma {:induction false} StaysUnreadable(file: File, appends: seq<(Line, Io)>)
    requires !Readable(file) && forall a | a in appends :: !a.0.Mangled?
    ensures !Readable(AppendAll(file, appends))
  {
    if appends != [] {
      var init, last := appends[..|appends| - 1], appends[|appends| - 1];
      assert forall a | a in init :: a in appends;
      StaysUnreadable(file, init);
      assert last in appends;
      AppendReadableIff(AppendAll(file, init), last.0, last.1);
    }
  }

  lemma {:induction false} FixedPoint<S>(step: S -> S, s: S, n: nat)
    requires step(s) == s
    ensures Repeat(step, s, n) == s
  {
    if n > 0 {
      FixedPoint(step, s, n - 1);
    }
  }

  /** A torn last line (it parses as nothing) makes the gate allow one time more than the budget, unless the
      budget was empty. */
  lemma TornTailAllowsOneMore(origins: Origins, file: File, req: UseRequest, now: int)
    requires file.tail == Some(Junk)
    ensures var budget := BudgetIn(origins, View(file), req, now);
            Allowance(origins, file, req, now) == if budget == 0 then 0 else budget + 1
  {
    ReplayedAppend(file.lines, Junk);
  }

  lemma OneGrantLive(rec: ConsentRecord)
    ensures Live([Grant(rec)]) == [rec] && Live([Grant(rec), Junk]) == [rec]
  {
    assert [Grant(rec)][..0] == [] && [Grant(rec), Junk][..1] == [Grant(rec)];
    assert Replayed([Grant(rec)]) == Index([rec.consentId], map[rec.consentId := rec]);
  }

  /** A usable grant, then an append cut short, make such a file. */
  lemma CutAppendTears(origins: Origins, req: UseRequest, now: int, rec: ConsentRecord, line: Line)
    requires Usable(origins.parse, QueryOf(origins, req), now, rec)
    ensures var file := Append(Append(File([], None), Grant(rec), Written), line, Cut(Partway));
            && file.tail == Some(Junk) && BudgetIn(origins, View(file), req, now) == Left(rec) > 0
            && Allowance(origins, file, req, now) == Left(rec) + 1
  {
    var file := Append(Append(File([], None), Grant(rec), Written), line, Cut(Partway));
    assert file.lines == [Grant(rec)] && View(file) == [Grant(rec), Junk];
    OneGrantLive(rec);
    assert Live(View(file)) == [rec] && [rec][..0] == [];
    assert Budget(origins.parse, QueryOf(origins, req), now, [rec]) == Left(rec);
    TornTailAllowsOneMore(origins, file, req, now);
  }

  /** A grant for one use, then an append cut short: the request is allowed twice. */
  lemma AllowedTwice() returns (origins: Origins, req: UseRequest, rec: ConsentRecord, file: File)
    ensures file == Append(Append(File([], None), Grant(rec), Written), Grant(rec), Cut(Partway))
    ensures Undisputed([], req) && Left(rec) == 1
    ensures DecisionAt(origins, [], file, req, 0, 0) == Allow
    ensures DecisionAt(origins, [], file, req, 0, 1) == Allow
    ensures DecisionAt(origins, [], file, req, 0, 2) == RequireConfirmation
  {
    var site := WebOrigin("https", "a.example", 443);
    origins := Origins(_ => Some(site), _ => "https://a.example");
    req := UseRequest("key", site, None, Login, None);
    rec := ConsentRecord("c", Credential("key"), "https://a.example", ["login"], 0, 10, 1, 0, None);
    file := Append(Append(File([], None), Grant(rec), Written), Grant(rec), Cut(Partway));
    CutAppendTears(origins, req, 0, rec, Grant(rec));
    RepeatedRequest(origins, [], file, req, 0, 0);
    RepeatedRequest(origins, [], file, req, 0, 1);
    RepeatedRequest(origins, [], file, req, 0, 2);
  }
}

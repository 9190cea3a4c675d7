/** The credential source behind agent logins: pick a candidate, check its allowlist, authorize one use, and only
    then resolve the value. The provider and the TOTP generator are parameters. */
module BrokerSource {
  import opened Text
  import opened ConsentStore
  import opened Policy
  import opened CredentialHandles
  import GrantSafety

  datatype Result<+T> = Success(value: T) | Failure(error: SourceError)
  datatype SourceError = NotFound | Unavailable | OriginMismatch | ConsentRequired

  datatype CredentialMeta = CredentialMeta(
    id: string, kind: CredentialKind, scope: string, allowedOrigins: seq<string>, hasTotp: bool,
    loginHint: Option<string>)

  datatype Lookup = Found(meta: CredentialMeta) | Missing | LookupFailed

  /** `resolve`: metadata and the exposed value, `None` when it cannot be exposed. */
  datatype Resolved = Value(meta: CredentialMeta, value: Option<string>) | ValueMissing | ValueFailed

  /** What the provider, the code generator and the fingerprint hash answer during one call. */
  datatype Provider = Provider(
    metadata: string -> Lookup,
    list: Option<seq<CredentialMeta>>,
    resolve: string -> Resolved,
    totpCode: string -> Option<string>,
    fingerprint: string -> string)

  datatype Candidate = Candidate(handle: string, meta: CredentialMeta)

  datatype Released =
    | Login(handle: string, username: Option<string>, password: string, allowed: seq<WebOrigin>)
    | Code(code: string)

  predicate Wanted(meta: CredentialMeta, scope: string, kind: CredentialKind) {
    meta.kind == kind && meta.scope == scope
  }

  /** Linked handles whose metadata fits, in order; any lookup error other than a missing handle aborts. */
  function Linked(p: Provider, handles: seq<string>, scope: string, kind: CredentialKind): Result<seq<Candidate>> {
    if handles == [] then Success([])
    else
      var before := Linked(p, handles[..|handles| - 1], scope, kind);
      var h := handles[|handles| - 1];
      if before.Failure? then before
      else
        match p.metadata(h)
        case LookupFailed => Failure(Unavailable)
        case Missing => before
        case Found(meta) => if Wanted(meta, scope, kind) then Success(before.value + [Candidate(h, meta)]) else before
  }

  function Listed(metas: seq<CredentialMeta>, scope: string, kind: CredentialKind): seq<Candidate> {
    if metas == [] then []
    else
      var m := metas[|metas| - 1];
      Listed(metas[..|metas| - 1], scope, kind) + if Wanted(m, scope, kind) then [Candidate(m.id, m)] else []
  }

  /** The linked candidates, or, when there is none, the provider's listing of the scope. */
  function Candidates(p: Provider, handles: seq<string>, scope: string, kind: CredentialKind): Result<seq<Candidate>> {
    var linked := Linked(p, handles, scope, kind);
    if linked.Failure? || linked.value != [] then linked
    else if p.list.None? then Failure(Unavailable)
    else Success(Listed(p.list.value, scope, kind))
  }

  /** Every stored origin must parse, and the page origin must be one of them. */
  function Allowlisted(parse: OriginParser, stored: seq<string>, origin: WebOrigin): Result<seq<WebOrigin>> {
    var allowed := ParseAll(parse, stored);
    if allowed.None? || origin !in allowed.value then Failure(OriginMismatch) else Success(allowed.value)
  }

  function ParseAll(parse: OriginParser, stored: seq<string>): (all: Option<seq<WebOrigin>>)
    ensures all.Some? <==> forall s | s in stored :: parse(s).Some?
    ensures all.Some? ==>
              |all.value| == |stored| && forall i | 0 <= i < |stored| :: Some(all.value[i]) == parse(stored[i])
  {
    if stored == [] then Some([])
    else
      var before, last := ParseAll(parse, stored[..|stored| - 1]), parse(stored[|stored| - 1]);
      assert stored == stored[..|stored| - 1] + [stored[|stored| - 1]];
      if before.None? || last.None? then None else Some(before.value + [last.value])
  }

  function ActionFor(kind: CredentialKind): CredentialAction { if kind.Totp? then Mfa else CredentialAction.Login }

  function Request(handle: string, origin: WebOrigin, kind: CredentialKind): UseRequest {
    UseRequest(handle, origin, Some(origin), ActionFor(kind), None)
  }

  /** Everything before the authorization: the candidate that would be used, and its parsed allowlist. */
  function Precheck(parse: OriginParser, p: Provider, handles: seq<string>, scope: string, origin: WebOrigin,
                    kind: CredentialKind): Result<(Candidate, seq<WebOrigin>)> {
    match Candidates(p, handles, scope, kind)
    case Failure(e) => Failure(e)
    case Success(cs) =>
      if cs == [] then Failure(SourceError.NotFound)
      else if kind.Totp? && !cs[0].meta.hasTotp then Failure(SourceError.NotFound)
      else
        match Allowlisted(parse, cs[0].meta.allowedOrigins, origin)
        case Failure(e) => Failure(e)
        case Success(allowed) => Success((cs[0], allowed))
  }

  /** Everything after it. */
  function Reveal(p: Provider, c: Candidate, allowed: seq<WebOrigin>, kind: CredentialKind): Result<Released> {
    match p.resolve(c.handle)
    case ValueFailed => Failure(Unavailable)
    case ValueMissing => Failure(if kind.Totp? then Unavailable else SourceError.NotFound)
    case Value(meta, value) =>
      if value.None? then Failure(Unavailable)
      else if kind.Totp? then
        match p.totpCode(value.value)
        case None => Failure(Unavailable)
        case Some(code) => Success(Code(code))
      else Success(Released.Login(c.handle, meta.loginHint, value.value, allowed))
  }

  /** The request as the fill line pairs it with the released value. */
  function Filled(p: Provider, req: UseRequest, released: Released): UseRequest {
    var value := if released.Login? then released.password else released.code;
    req.(valueFingerprint := Some(p.fingerprint(value)))
  }

  lemma LinkedStep(p: Provider, handles: seq<string>, scope: string, kind: CredentialKind, i: nat)
    requires i < |handles| && Linked(p, handles[..i], scope, kind).Success?
    ensures var out := Linked(p, handles[..i], scope, kind).value;
            Linked(p, handles[..i + 1], scope, kind) ==
            match p.metadata(handles[i])
            case LookupFailed => Failure(Unavailable)
            case Missing => Success(out)
            case Found(meta) =>
              if Wanted(meta, scope, kind) then Success(out + [Candidate(handles[i], meta)]) else Success(out)
  {
    assert handles[..i + 1][..i] == handles[..i];
  }

  // ---------- what a candidate is ----------

  /** The candidate's metadata fits, and the provider vouches for it under this handle. */
  ghost predicate Vouched(p: Provider, handles: seq<string>, c: Candidate) {
    (c.handle in handles && p.metadata(c.handle) == Found(c.meta))
    || (c.handle == c.meta.id && p.list.Some? && c.meta in p.list.value)
  }

  lemma {:induction false} LinkedFit(p: Provider, handles: seq<string>, scope: string, kind: CredentialKind,
                                     c: Candidate)
    requires Linked(p, handles, scope, kind).Success? && c in Linked(p, handles, scope, kind).value
    ensures Wanted(c.meta, scope, kind) && c.handle in handles && p.metadata(c.handle) == Found(c.meta)
  {
    var init, h := handles[..|handles| - 1], handles[|handles| - 1];
    assert handles == init + [h];
    if c in Linked(p, init, scope, kind).value {
      LinkedFit(p, init, scope, kind, c);
    }
  }

  /** With no failing lookup, the first linked handle that fits is the candidate used; the listing is not consulted. */
  lemma {:induction false} FirstLinkedIsUsed(p: Provider, handles: seq<string>, scope: string, kind: CredentialKind,
                                             i: nat)
    requires forall h | h in handles :: !p.metadata(h).LookupFailed?
    requires i < |handles| && p.metadata(handles[i]).Found? && Wanted(p.metadata(handles[i]).meta, scope, kind)
    requires forall j | 0 <= j < i && p.metadata(handles[j]).Found? :: !Wanted(p.metadata(handles[j]).meta, scope, kind)
    ensures Linked(p, handles, scope, kind).Success? && Linked(p, handles, scope, kind).value != []
    ensures Candidates(p, handles, scope, kind) == Linked(p, handles, scope, kind)
    ensures Candidates(p, handles, scope, kind).value[0] == Candidate(handles[i], p.metadata(handles[i]).meta)
    decreases |handles|
  {
    var n := |handles| - 1;
    assert handles == handles[..n] + [handles[n]];
    if i < n {
      FirstLinkedIsUsed(p, handles[..n], scope, kind, i);
    } else {
      NoneLinked(p, handles[..n], scope, kind);
    }
  }

  lemma {:induction false} NoneLinked(p: Provider, handles: seq<string>, scope: string, kind: CredentialKind)
    requires forall h | h in handles :: !p.metadata(h).LookupFailed?
    requires forall h | h in handles && p.metadata(h).Found? :: !Wanted(p.metadata(h).meta, scope, kind)
    ensures Linked(p, handles, scope, kind) == Success([])
  {
    if handles != [] {
      assert handles == handles[..|handles| - 1] + [handles[|handles| - 1]];
      NoneLinked(p, handles[..|handles| - 1], scope, kind);
    }
  }

  lemma {:induction false} ListedFit(p: Provider, metas: seq<CredentialMeta>, handles: seq<string>, scope: string,
                                     kind: CredentialKind)
    requires p.list.Some? && forall m | m in metas :: m in p.list.value
    ensures forall c | c in Listed(metas, scope, kind) :: Wanted(c.meta, scope, kind) && Vouched(p, handles, c)
  {
    if metas != [] {
      assert metas == metas[..|metas| - 1] + [metas[|metas| - 1]];
      ListedFit(p, metas[..|metas| - 1], handles, scope, kind);
    }
  }

  /** What passes the precheck is a credential of the requested kind and scope whose allowlist parses and holds the
      page origin. */
  lemma PrecheckSound(parse: OriginParser, p: Provider, handles: seq<string>, scope: string, origin: WebOrigin,
                      kind: CredentialKind)
    requires Precheck(parse, p, handles, scope, origin, kind).Success?
    ensures var (c, allowed) := Precheck(parse, p, handles, scope, origin, kind).value;
            && Wanted(c.meta, scope, kind) && Vouched(p, handles, c) && origin in allowed
            && (kind.Totp? ==> c.meta.hasTotp)
            && (exists s :: s in c.meta.allowedOrigins && parse(s) == Some(origin))
            && (forall s | s in c.meta.allowedOrigins :: parse(s).Some?)
  {
    var (c, allowed) := Precheck(parse, p, handles, scope, origin, kind).value;
    if Linked(p, handles, scope, kind).value != [] {
      LinkedFit(p, handles, scope, kind, c);
    } else {
      ListedFit(p, p.list.value, handles, scope, kind);
    }
    var i :| 0 <= i < |allowed| && allowed[i] == origin;
    assert parse(c.meta.allowedOrigins[i]) == Some(origin);
  }

  // ---------- what one call does, by the provider's answers ----------

  /** Position `i` is the first whose metadata fits; what `look` does not find is passed over. */
  ghost predicate FirstFit(look: seq<Option<CredentialMeta>>, scope: string, kind: CredentialKind, i: int) {
    && 0 <= i < |look| && look[i].Some? && look[i].value.kind == kind && look[i].value.scope == scope
    && forall j | 0 <= j < i && look[j].Some? :: look[j].value.kind != kind || look[j].value.scope != scope
  }

  ghost predicate NoneFits(look: seq<Option<CredentialMeta>>, scope: string, kind: CredentialKind) {
    forall j | 0 <= j < |look| && look[j].Some? :: look[j].value.kind != kind || look[j].value.scope != scope
  }

  function LookedUp(p: Provider, handles: seq<string>): seq<Option<CredentialMeta>> {
    seq(|handles|, i requires 0 <= i < |handles| =>
      if p.metadata(handles[i]).Found? then Some(p.metadata(handles[i]).meta) else None)
  }

  function AllListed(metas: seq<CredentialMeta>): seq<Option<CredentialMeta>> {
    seq(|metas|, i requires 0 <= i < |metas| => Some(metas[i]))
  }

  /** `c` is the first linked handle whose metadata fits or, when none does, the first listed credential that fits. */
  ghost predicate Selects(p: Provider, handles: seq<string>, scope: string, kind: CredentialKind, c: Candidate) {
    && (forall h | h in handles :: !p.metadata(h).LookupFailed?)
    && if !NoneFits(LookedUp(p, handles), scope, kind) then
         exists i :: FirstFit(LookedUp(p, handles), scope, kind, i)
                     && c.handle == handles[i] && Found(c.meta) == p.metadata(handles[i])
       else
         p.list.Some? && exists i :: FirstFit(AllListed(p.list.value), scope, kind, i)
                                     && c.meta == p.list.value[i] && c.handle == p.list.value[i].id
  }

  /** No candidate: a lookup or the listing failed, or nothing fits. */
  ghost predicate SelectFails(p: Provider, handles: seq<string>, scope: string, kind: CredentialKind,
                              e: SourceError) {
    if exists h :: h in handles && p.metadata(h) == LookupFailed then e == Unavailable
    else NoneFits(LookedUp(p, handles), scope, kind)
         && if p.list == None then e == Unavailable
            else NoneFits(AllListed(p.list.value), scope, kind) && e == SourceError.NotFound
  }

  /** What is released for which answer of the provider, and which error for every other. */
  ghost predicate Releases(parse: OriginParser, p: Provider, c: Candidate, kind: CredentialKind, r: Result<Released>) {
    match p.resolve(c.handle)
    case ValueFailed => r == Failure(Unavailable)
    case ValueMissing => r == Failure(if kind == Totp then Unavailable else SourceError.NotFound)
    case Value(_, None) => r == Failure(Unavailable)
    case Value(meta, Some(secret)) =>
      if kind == Totp then
        match p.totpCode(secret)
        case None => r == Failure(Unavailable)
        case Some(code) => r == Success(Code(code))
      else
        && r.Success? && r.value.Login?
        && r.value.handle == c.handle && r.value.username == meta.loginHint && r.value.password == secret
        && |r.value.allowed| == |c.meta.allowedOrigins|
        && forall i | 0 <= i < |r.value.allowed| :: parse(c.meta.allowedOrigins[i]) == Some(r.value.allowed[i])
  }

  /** The value a release puts on the page, to be fingerprinted. */
  ghost predicate Exposes(released: Released, value: string) {
    match released
    case Login(_, _, password, _) => value == password
    case Code(code) => value == code
  }

  /** With candidate `c`: the checks before the authorization, each leaving log and audit alone; the authorization of
      one use by handle, page origin and action; and only then the release, with its own audit line. */
  ghost predicate UsesCandidate(
      origins: Origins, rules: seq<OriginRule>, p: Provider, c: Candidate, origin: WebOrigin, kind: CredentialKind,
      now: int, io: Io, recorded: bool, file: File, file': File, audit: seq<AuditLine>, audit': seq<AuditLine>,
      r: Result<Released>)
  {
    if kind == Totp && !c.meta.hasTotp then
      r == Failure(SourceError.NotFound) && file' == file && audit' == audit
    else if (exists s :: s in c.meta.allowedOrigins && origins.parse(s) == None)
            || (forall s | s in c.meta.allowedOrigins :: origins.parse(s) != Some(origin)) then
      r == Failure(OriginMismatch) && file' == file && audit' == audit
    else
      var action := if kind == Totp then Mfa else CredentialAction.Login;
      var req := UseRequest(c.handle, origin, Some(origin), action, None);
      exists decision, reason ::
        && Decides(origins, rules, file, req, now, io, decision, reason, file')
        && AfterDecision(origins.parse, p, c, kind, req, decision, reason, recorded, audit, audit', r)
  }

  /** Without an Allow nothing is released; with one, what the provider's answers say, and a fill line for it. */
  ghost predicate AfterDecision(
      parse: OriginParser, p: Provider, c: Candidate, kind: CredentialKind, req: UseRequest, decision: Decision,
      reason: Reason, recorded: bool, audit: seq<AuditLine>, audit': seq<AuditLine>, r: Result<Released>)
  {
    var line := if recorded then [AuditLine(decision, reason, req)] else [];
    if decision != Allow then r == Failure(ConsentRequired) && audit' == audit + line
    else
      && Releases(parse, p, c, kind, r)
      && if r.Failure? || !recorded then audit' == audit + line
         else exists value ::
                && Exposes(r.value, value)
                && audit' == audit + line
                     + [AuditLine(Allow, Confirmed, req.(valueFingerprint := Some(p.fingerprint(value))))]
  }

  ghost predicate Resolves(
      origins: Origins, rules: seq<OriginRule>, p: Provider, handles: seq<string>, scope: string, origin: WebOrigin,
      kind: CredentialKind, now: int, io: Io, recorded: bool, file: File, file': File,
      audit: seq<AuditLine>, audit': seq<AuditLine>, r: Result<Released>)
  {
    (exists e :: SelectFails(p, handles, scope, kind, e) && r == Failure(e) && file' == file && audit' == audit)
    || exists c :: Selects(p, handles, scope, kind, c)
         && UsesCandidate(origins, rules, p, c, origin, kind, now, io, recorded, file, file', audit, audit', r)
  }

  /** A call has one candidate or one reason for having none. */
  lemma SelectionIsDetermined(p: Provider, handles: seq<string>, scope: string, kind: CredentialKind,
                              c: Candidate, d: Candidate, e: SourceError, f: SourceError)
    ensures Selects(p, handles, scope, kind, c) && Selects(p, handles, scope, kind, d) ==> c == d
    ensures SelectFails(p, handles, scope, kind, e) && SelectFails(p, handles, scope, kind, f) ==> e == f
    ensures !(Selects(p, handles, scope, kind, c) && SelectFails(p, handles, scope, kind, e))
  {
    if Selects(p, handles, scope, kind, c) && Selects(p, handles, scope, kind, d) {
      OneSelected(p, handles, scope, kind, c, d);
    }
  }

  lemma OneSelected(p: Provider, handles: seq<string>, scope: string, kind: CredentialKind, c: Candidate, d: Candidate)
    requires Selects(p, handles, scope, kind, c) && Selects(p, handles, scope, kind, d)
    ensures c == d
  {
    if !NoneFits(LookedUp(p, handles), scope, kind) {
      var look := LookedUp(p, handles);
      var i :| FirstFit(look, scope, kind, i) && c.handle == handles[i] && Found(c.meta) == p.metadata(handles[i]);
      var j :| FirstFit(look, scope, kind, j) && d.handle == handles[j] && Found(d.meta) == p.metadata(handles[j]);
      OneFirstFit(look, scope, kind, i, j);
    } else {
      var metas := p.list.value;
      var i :| FirstFit(AllListed(metas), scope, kind, i) && c.meta == metas[i] && c.handle == metas[i].id;
      var j :| FirstFit(AllListed(metas), scope, kind, j) && d.meta == metas[j] && d.handle == metas[j].id;
      OneFirstFit(AllListed(metas), scope, kind, i, j);
    }
  }

  lemma OneFirstFit(look: seq<Option<CredentialMeta>>, scope: string, kind: CredentialKind, i: int, j: int)
    requires FirstFit(look, scope, kind, i) && FirstFit(look, scope, kind, j)
    ensures i == j
  {
  }

  lemma FirstFitExtends(look: seq<Option<CredentialMeta>>, last: Option<CredentialMeta>, scope: string,
                        kind: CredentialKind)
    ensures forall i | FirstFit(look, scope, kind, i) :: FirstFit(look + [last], scope, kind, i)
    ensures NoneFits(look, scope, kind) ==>
              (NoneFits(look + [last], scope, kind) <==> !FirstFit(look + [last], scope, kind, |look|))
    ensures !NoneFits(look, scope, kind) ==> !NoneFits(look + [last], scope, kind)
  {
    var longer := look + [last];
    assert forall j | 0 <= j < |look| :: longer[j] == look[j];
  }

  lemma {:induction false} LinkedMeaning(p: Provider, handles: seq<string>, scope: string, kind: CredentialKind)
    ensures var linked := Linked(p, handles, scope, kind);
            if exists h :: h in handles && p.metadata(h) == LookupFailed then linked == Failure(Unavailable)
            else
              && linked.Success? && (linked.value == [] <==> NoneFits(LookedUp(p, handles), scope, kind))
              && (linked.value != [] ==>
                    exists i :: FirstFit(LookedUp(p, handles), scope, kind, i)
                                && linked.value[0].handle == handles[i]
                                && Found(linked.value[0].meta) == p.metadata(handles[i]))
  {
    if handles != [] {
      var n := |handles| - 1;
      LinkedMeaning(p, handles[..n], scope, kind);
      assert handles == handles[..n] + [handles[n]];
      var look, before := LookedUp(p, handles), LookedUp(p, handles[..n]);
      assert look == before + [look[n]];
      FirstFitExtends(before, look[n], scope, kind);
      var linked := Linked(p, handles, scope, kind);
      if linked.Success? && linked.value != [] {
        if Linked(p, handles[..n], scope, kind).value != [] {
          var i :| FirstFit(before, scope, kind, i)
                   && Linked(p, handles[..n], scope, kind).value[0].handle == handles[..n][i]
                   && Found(Linked(p, handles[..n], scope, kind).value[0].meta) == p.metadata(handles[..n][i]);
          assert FirstFit(look, scope, kind, i);
        }
      }
    }
  }

  lemma {:induction false} ListedMeaning(metas: seq<CredentialMeta>, scope: string, kind: CredentialKind)
    ensures var listed := Listed(metas, scope, kind);
            && (listed == [] <==> NoneFits(AllListed(metas), scope, kind))
            && (listed != [] ==>
                  exists i :: FirstFit(AllListed(metas), scope, kind, i)
                              && listed[0].meta == metas[i] && listed[0].handle == metas[i].id)
  {
    if metas != [] {
      var n := |metas| - 1;
      ListedMeaning(metas[..n], scope, kind);
      var look, before := AllListed(metas), AllListed(metas[..n]);
      assert forall j | 0 <= j < n :: look[j] == before[j];
      if Listed(metas[..n], scope, kind) != [] {
        var i :| FirstFit(before, scope, kind, i) && Listed(metas[..n], scope, kind)[0].meta == metas[..n][i]
                 && Listed(metas[..n], scope, kind)[0].handle == metas[..n][i].id;
        assert FirstFit(look, scope, kind, i);
      } else if Listed(metas, scope, kind) != [] {
        assert FirstFit(look, scope, kind, n);
      }
    }
  }

  lemma CandidatesMeaning(p: Provider, handles: seq<string>, scope: string, kind: CredentialKind)
    ensures match Candidates(p, handles, scope, kind)
            case Failure(e) => SelectFails(p, handles, scope, kind, e)
            case Success(cs) => if cs == [] then SelectFails(p, handles, scope, kind, SourceError.NotFound)
                                else Selects(p, handles, scope, kind, cs[0])
  {
    LinkedMeaning(p, handles, scope, kind);
    if p.list.Some? {
      ListedMeaning(p.list.value, scope, kind);
    }
  }

  lemma AllowlistedMeaning(parse: OriginParser, stored: seq<string>, origin: WebOrigin)
    ensures match Allowlisted(parse, stored, origin)
            case Failure(e) =>
              && e == OriginMismatch
              && ((exists s :: s in stored && parse(s) == None) || forall s | s in stored :: parse(s) != Some(origin))
            case Success(allowed) =>
              && (forall s | s in stored :: parse(s) != None) && (exists s :: s in stored && parse(s) == Some(origin))
              && |allowed| == |stored| && forall i | 0 <= i < |stored| :: parse(stored[i]) == Some(allowed[i])
  {
    var allowed := ParseAll(parse, stored);
    if allowed.Some? {
      if origin in allowed.value {
        var i :| 0 <= i < |allowed.value| && allowed.value[i] == origin;
        assert parse(stored[i]) == Some(origin) && stored[i] in stored;
      } else {
        forall s | s in stored ensures parse(s) != Some(origin) {
          var i :| 0 <= i < |stored| && stored[i] == s;
          assert allowed.value[i] in allowed.value;
        }
      }
    }
  }

  lemma RevealMeaning(parse: OriginParser, p: Provider, c: Candidate, allowed: seq<WebOrigin>, kind: CredentialKind)
    requires |allowed| == |c.meta.allowedOrigins|
    requires forall i | 0 <= i < |allowed| :: parse(c.meta.allowedOrigins[i]) == Some(allowed[i])
    ensures Releases(parse, p, c, kind, Reveal(p, c, allowed, kind))
  {
  }

  /** The checked candidate, and the allowlist it comes with. */
  lemma PrecheckMeaning(parse: OriginParser, p: Provider, handles: seq<string>, scope: string, origin: WebOrigin,
                        kind: CredentialKind)
    ensures match Candidates(p, handles, scope, kind)
            case Failure(e) => Precheck(parse, p, handles, scope, origin, kind) == Failure(e)
            case Success(cs) =>
              if cs == [] then Precheck(parse, p, handles, scope, origin, kind) == Failure(SourceError.NotFound)
              else
                var c := cs[0];
                match Precheck(parse, p, handles, scope, origin, kind)
                case Failure(e) =>
                  (kind == Totp && !c.meta.hasTotp && e == SourceError.NotFound)
                  || (!(kind == Totp && !c.meta.hasTotp) && e == OriginMismatch
                      && Allowlisted(parse, c.meta.allowedOrigins, origin) == Failure(OriginMismatch))
                case Success((d, allowed)) =>
                  && d == c && !(kind == Totp && !c.meta.hasTotp)
                  && Allowlisted(parse, c.meta.allowedOrigins, origin) == Success(allowed)
  {
  }

  /** A refused candidate leaves log and audit alone. */
  lemma RefusedCandidate(
      origins: Origins, rules: seq<OriginRule>, p: Provider, c: Candidate, origin: WebOrigin, kind: CredentialKind,
      now: int, io: Io, recorded: bool, file: File, audit: seq<AuditLine>, e: SourceError)
    requires if kind == Totp && !c.meta.hasTotp then e == SourceError.NotFound
             else e == OriginMismatch
                  && Allowlisted(origins.parse, c.meta.allowedOrigins, origin) == Failure(OriginMismatch)
    ensures UsesCandidate(origins, rules, p, c, origin, kind, now, io, recorded, file, file, audit, audit, Failure(e))
  {
    AllowlistedMeaning(origins.parse, c.meta.allowedOrigins, origin);
  }

  lemma AfterDecisionMeaning(
      parse: OriginParser, p: Provider, c: Candidate, allowed: seq<WebOrigin>, kind: CredentialKind, req: UseRequest,
      v: Verdict, recorded: bool, audit: seq<AuditLine>)
    requires |allowed| == |c.meta.allowedOrigins|
    requires forall i | 0 <= i < |allowed| :: parse(c.meta.allowedOrigins[i]) == Some(allowed[i])
    ensures var r := if v.decision == Allow then Reveal(p, c, allowed, kind) else Failure(ConsentRequired);
            var audit' := audit
              + (if recorded then [AuditLine(v.decision, v.reason, req)] else [])
              + (if recorded && r.Success? then [AuditLine(Allow, Confirmed, Filled(p, req, r.value))] else []);
            AfterDecision(parse, p, c, kind, req, v.decision, v.reason, recorded, audit, audit', r)
  {
    RevealMeaning(parse, p, c, allowed, kind);
    var r := if v.decision == Allow then Reveal(p, c, allowed, kind) else Failure(ConsentRequired);
    var line := if recorded then [AuditLine(v.decision, v.reason, req)] else [];
    assert audit + line + [] == audit + line;
    if r.Success? {
      assert Exposes(r.value, if r.value.Login? then r.value.password else r.value.code);
    }
  }

  /** A checked candidate is authorized, and its value released if that allows it. */
  lemma AuthorizedCandidate(
      origins: Origins, rules: seq<OriginRule>, p: Provider, c: Candidate, allowed: seq<WebOrigin>,
      origin: WebOrigin, kind: CredentialKind, now: int, io: Io, recorded: bool, file: File, audit: seq<AuditLine>)
    requires !(kind == Totp && !c.meta.hasTotp) && (kind == Totp || kind == Password)
    requires Allowlisted(origins.parse, c.meta.allowedOrigins, origin) == Success(allowed)
    ensures var req := Request(c.handle, origin, kind);
            var v := Authorize(origins, rules, file, req, now, io);
            var r := if v.decision == Allow then Reveal(p, c, allowed, kind) else Failure(ConsentRequired);
            var audit' := audit
              + (if recorded then [AuditLine(v.decision, v.reason, req)] else [])
              + (if recorded && r.Success? then [AuditLine(Allow, Confirmed, Filled(p, req, r.value))] else []);
            UsesCandidate(origins, rules, p, c, origin, kind, now, io, recorded, file, v.file, audit, audit', r)
  {
    var req := Request(c.handle, origin, kind);
    var v := Authorize(origins, rules, file, req, now, io);
    AllowlistedMeaning(origins.parse, c.meta.allowedOrigins, origin);
    AuthorizeMeaning(origins, rules, file, req, now, io);
    AfterDecisionMeaning(origins.parse, p, c, allowed, kind, req, v, recorded, audit);
  }

  // ---------- the operation ----------

  class Broker {
    const engine: PolicyEngine

    constructor (engine: PolicyEngine)
      ensures this.engine == engine
    {
      this.engine := engine;
    }

    method FindCandidates(p: Provider, handles: seq<string>, scope: string, kind: CredentialKind)
        returns (r: Result<seq<Candidate>>)
      ensures r == Candidates(p, handles, scope, kind)
    {
      var out: seq<Candidate> := [];
      for i := 0 to |handles|
        invariant Linked(p, handles[..i], scope, kind) == Success(out)
      {
        LinkedStep(p, handles, scope, kind, i);
        match p.metadata(handles[i])
        case LookupFailed =>
          LookupFailureAborts(p, handles, scope, kind, i + 1);
          return Failure(Unavailable);
        case Missing =>
        case Found(meta) =>
          if Wanted(meta, scope, kind) {
            out := out + [Candidate(handles[i], meta)];
          }
      }
      assert handles[..|handles|] == handles;
      if out == [] {
        if p.list.None? {
          return Failure(Unavailable);
        }
        var metas := p.list.value;
        for i := 0 to |metas|
          invariant out == Listed(metas[..i], scope, kind)
        {
          assert metas[..i + 1][..i] == metas[..i];
          if Wanted(metas[i], scope, kind) {
            out := out + [Candidate(metas[i].id, metas[i])];
          }
        }
        assert metas[..|metas|] == metas;
      }
      r := Success(out);
    }

    method CheckAllowlist(parse: OriginParser, meta: CredentialMeta, origin: WebOrigin)
      returns (r: Result<seq<WebOrigin>>)
      ensures r == Allowlisted(parse, meta.allowedOrigins, origin)
    {
      var stored := meta.allowedOrigins;
      var allowed: seq<WebOrigin> := [];
      for i := 0 to |stored|
        invariant ParseAll(parse, stored[..i]) == Some(allowed)
      {
        assert stored[..i + 1][..i] == stored[..i];
        var o := parse(stored[i]);
        if o.None? {
          assert stored[i] in stored;
          return Failure(OriginMismatch);
        }
        allowed := allowed + [o.value];
      }
      assert stored[..|stored|] == stored;
      r := if origin in allowed then Success(allowed) else Failure(OriginMismatch);
    }

    /** `resolve_login` (kind password) and `resolve_totp` (kind totp): nothing is recorded before the
        authorization, exactly its verdict is recorded by it, and a value leaves only after it allowed. */
    method Resolve(origins: Origins, p: Provider, handles: seq<string>, scope: string, origin: WebOrigin,
                   kind: CredentialKind, now: int, io: Io, recorded: bool) returns (r: Result<Released>)
      requires kind.Password? || kind.Totp?
      modifies engine`audit, engine.consents
      ensures Resolves(origins, engine.denyRules, p, handles, scope, origin, kind, now, io, recorded,
                       old(engine.consents.file), engine.consents.file, old(engine.audit), engine.audit, r)
      ensures match Precheck(origins.parse, p, handles, scope, origin, kind)
              case Failure(e) =>
                r == Failure(e) && engine.consents.file == old(engine.consents.file)
                && engine.audit == old(engine.audit)
              case Success((c, allowed)) =>
                var req := Request(c.handle, origin, kind);
                var v := Authorize(origins, engine.denyRules, old(engine.consents.file), req, now, io);
                && engine.consents.file == v.file
                && r == (if v.decision == Allow then Reveal(p, c, allowed, kind) else Failure(ConsentRequired))
                && engine.audit == old(engine.audit)
                     + (if recorded then [AuditLine(v.decision, v.reason, req)] else [])
                     + (if recorded && r.Success? then [AuditLine(Allow, Confirmed, Filled(p, req, r.value))] else [])
    {
      ghost var file, audit := engine.consents.file, engine.audit;
      CandidatesMeaning(p, handles, scope, kind);
      PrecheckMeaning(origins.parse, p, handles, scope, origin, kind);
      var found := FindCandidates(p, handles, scope, kind);
      if found.Failure? {
        return Failure(found.error);
      }
      if found.value == [] {
        return Failure(SourceError.NotFound);
      }
      var c := found.value[0];
      if kind.Totp? && !c.meta.hasTotp {
        RefusedCandidate(origins, engine.denyRules, p, c, origin, kind, now, io, recorded, file, audit,
                         SourceError.NotFound);
        return Failure(SourceError.NotFound);
      }
      var checked := CheckAllowlist(origins.parse, c.meta, origin);
      if checked.Failure? {
        RefusedCandidate(origins, engine.denyRules, p, c, origin, kind, now, io, recorded, file, audit, checked.error);
        return Failure(checked.error);
      }
      r := UseCandidate(origins, p, c, checked.value, origin, kind, now, io, recorded);
    }

    /** The authorization of one use, and the release if it allows. */
    method UseCandidate(origins: Origins, p: Provider, c: Candidate, allowed: seq<WebOrigin>, origin: WebOrigin,
                        kind: CredentialKind, now: int, io: Io, recorded: bool) returns (r: Result<Released>)
      requires (kind.Password? || kind.Totp?) && (kind.Totp? ==> c.meta.hasTotp)
      requires Allowlisted(origins.parse, c.meta.allowedOrigins, origin) == Success(allowed)
      modifies engine`audit, engine.consents
      ensures UsesCandidate(origins, engine.denyRules, p, c, origin, kind, now, io, recorded,
                            old(engine.consents.file), engine.consents.file, old(engine.audit), engine.audit, r)
      ensures var req := Request(c.handle, origin, kind);
              var v := Authorize(origins, engine.denyRules, old(engine.consents.file), req, now, io);
              && engine.consents.file == v.file
              && r == (if v.decision == Allow then Reveal(p, c, allowed, kind) else Failure(ConsentRequired))
              && engine.audit == old(engine.audit)
                   + (if recorded then [AuditLine(v.decision, v.reason, req)] else [])
                   + (if recorded && r.Success? then [AuditLine(Allow, Confirmed, Filled(p, req, r.value))] else [])
    {
      AuthorizedCandidate(origins, engine.denyRules, p, c, allowed, origin, kind, now, io, recorded,
                          engine.consents.file, engine.audit);
      var request := Request(c.handle, origin, kind);
      var decision := engine.AuthorizeUseAt(origins, request, now, io, recorded);
      if decision != Allow {
        return Failure(ConsentRequired);
      }
      r := Reveal(p, c, allowed, kind);
      if r.Success? {
        engine.Log(Filled(p, request, r.value), Allow, Confirmed, recorded);
      }
    }
  }

  lemma {:induction false} LookupFailureAborts(p: Provider, handles: seq<string>, scope: string, kind: CredentialKind,
                                               n: nat)
    requires n <= |handles| && Linked(p, handles[..n], scope, kind).Failure?
    ensures Linked(p, handles, scope, kind) == Linked(p, handles[..n], scope, kind)
    decreases |handles|
  {
    if n < |handles| {
      assert handles[..|handles| - 1][..n] == handles[..n];
      LookupFailureAborts(p, handles[..|handles| - 1], scope, kind, n);
    } else {
      assert handles[..n] == handles;
    }
  }

  // ---------- accounting over whole runs ----------

  datatype Call = Call(p: Provider, handles: seq<string>, scope: string, origin: WebOrigin, kind: CredentialKind,
                       rules: seq<OriginRule>, now: int, io: Io)

  datatype Event = Resolve(call: Call) | Other(event: GrantSafety.Event)

  /** The consent run, and one entry per value released: the id of the grant it was released under. */
  datatype State = State(consent: GrantSafety.State, released: multiset<string>)

  /** A run may start from any consent log. */
  function Start(file: File): State { State(GrantSafety.Start(file), multiset{}) }

  /** The consent event a call amounts to, if it gets as far as the authorization. */
  function AuthorizationOf(origins: Origins, call: Call): Option<(GrantSafety.Event, Candidate, seq<WebOrigin>)> {
    match Precheck(origins.parse, call.p, call.handles, call.scope, call.origin, call.kind)
    case Failure(_) => None
    case Success((c, allowed)) =>
      var request := Request(c.handle, call.origin, call.kind);
      Some((GrantSafety.AuthorizeEvent(call.rules, request, call.now, call.io), c, allowed))
  }

  function Apply(origins: Origins, s: State, e: Event): State
    requires e.Other? ==> GrantSafety.Possible(s.consent, e.event)
  {
    match e
    case Other(event) => s.(consent := GrantSafety.Apply(origins, s.consent, event))
    case Resolve(call) =>
      match AuthorizationOf(origins, call)
      case None => s
      case Some((event, c, allowed)) =>
        var v := Authorize(origins, event.rules, s.consent.file, event.req, event.now, event.io);
        State(GrantSafety.Apply(origins, s.consent, event),
              s.released +
              if v.decision == Allow && v.reason.UsedConsent? && Reveal(call.p, c, allowed, call.kind).Success?
              then multiset{v.reason.id} else multiset{})
  }

  ghost predicate IsRun(origins: Origins, trace: seq<State>, events: seq<Event>) {
    && |trace| == |events| + 1 && trace[0] == Start(trace[0].consent.file)
    && forall i {:trigger events[i]} | 0 <= i < |events| ::
         && (events[i].Other? ==> GrantSafety.Possible(trace[i].consent, events[i].event))
         && trace[i + 1] == Apply(origins, trace[i], events[i])
  }

  /** A call in a run is a call of the broker: it resolves as `Broker.Resolve` does and, when it succeeds, one release
      is noted under the grant that this very call cites. */
  ghost predicate CallNoted(origins: Origins, s: State, s': State, call: Call, r: Result<Released>) {
    && Resolves(origins, call.rules, call.p, call.handles, call.scope, call.origin, call.kind, call.now, call.io, false,
                s.consent.file, s'.consent.file, [], [], r)
    && if r.Failure? then s'.released == s.released
       else exists id :: s'.consent.cited == s.consent.cited + multiset{id} && s'.released == s.released + multiset{id}
  }

  lemma CallsAreNoted(origins: Origins, s: State, call: Call) returns (r: Result<Released>)
    requires call.kind == Password || call.kind == Totp
    ensures CallNoted(origins, s, Apply(origins, s, Resolve(call)), call, r)
  {
    CandidatesMeaning(call.p, call.handles, call.scope, call.kind);
    PrecheckMeaning(origins.parse, call.p, call.handles, call.scope, call.origin, call.kind);
    match Precheck(origins.parse, call.p, call.handles, call.scope, call.origin, call.kind)
    case Failure(e) =>
      r := Failure(e);
      if Candidates(call.p, call.handles, call.scope, call.kind).Success?
         && Candidates(call.p, call.handles, call.scope, call.kind).value != []
      {
        RefusedCandidate(origins, call.rules, call.p,
                         Candidates(call.p, call.handles, call.scope, call.kind).value[0], call.origin, call.kind,
                         call.now, call.io, false, s.consent.file, [], e);
      }
    case Success((c, allowed)) =>
      var v := Authorize(origins, call.rules, s.consent.file, Request(c.handle, call.origin, call.kind), call.now,
                         call.io);
      r := if v.decision == Allow then Reveal(call.p, c, allowed, call.kind) else Failure(ConsentRequired);
      CheckedCall(origins, s, call, c, allowed, r);
      NotedRelease(origins, s, call, c, allowed, r);
  }

  lemma CheckedCall(origins: Origins, s: State, call: Call, c: Candidate, allowed: seq<WebOrigin>, r: Result<Released>)
    requires call.kind == Password || call.kind == Totp
    requires Precheck(origins.parse, call.p, call.handles, call.scope, call.origin, call.kind) == Success((c, allowed))
    requires var v := Authorize(origins, call.rules, s.consent.file, Request(c.handle, call.origin, call.kind),
                                call.now, call.io);
             r == if v.decision == Allow then Reveal(call.p, c, allowed, call.kind) else Failure(ConsentRequired)
    ensures Resolves(origins, call.rules, call.p, call.handles, call.scope, call.origin, call.kind, call.now, call.io,
                     false, s.consent.file, Apply(origins, s, Resolve(call)).consent.file, [], [], r)
  {
    CandidatesMeaning(call.p, call.handles, call.scope, call.kind);
    PrecheckMeaning(origins.parse, call.p, call.handles, call.scope, call.origin, call.kind);
    AuthorizedCandidate(origins, call.rules, call.p, c, allowed, call.origin, call.kind, call.now, call.io, false,
                        s.consent.file, []);
  }

  lemma NotedRelease(origins: Origins, s: State, call: Call, c: Candidate, allowed: seq<WebOrigin>, r: Result<Released>)
    requires Precheck(origins.parse, call.p, call.handles, call.scope, call.origin, call.kind) == Success((c, allowed))
    requires var v := Authorize(origins, call.rules, s.consent.file, Request(c.handle, call.origin, call.kind),
                                call.now, call.io);
             r == if v.decision == Allow then Reveal(call.p, c, allowed, call.kind) else Failure(ConsentRequired)
    ensures var s' := Apply(origins, s, Resolve(call));
            if r.Failure? then s'.released == s.released
            else exists id :: s'.consent.cited == s.consent.cited + multiset{id}
                              && s'.released == s.released + multiset{id}
  {
    var req := Request(c.handle, call.origin, call.kind);
    var v := Authorize(origins, call.rules, s.consent.file, req, call.now, call.io);
    AuthorizeMeaning(origins, call.rules, s.consent.file, req, call.now, call.io);
    assert s.released + multiset{} == s.released;
    if r.Success? {
      var s' := Apply(origins, s, Resolve(call));
      assert v.reason.UsedConsent?;
      assert s'.consent.cited == s.consent.cited + multiset{v.reason.id};
    }
  }

  /** The consent event of a broker event, if there is one. */
  function EventOf(origins: Origins, e: Event): Option<GrantSafety.Event> {
    match e
    case Other(event) => Some(event)
    case Resolve(call) =>
      var a := AuthorizationOf(origins, call);
      if a.None? then None else Some(a.value.0)
  }

  lemma StepUnderneath(origins: Origins, s: State, e: Event)
    requires e.Other? ==> GrantSafety.Possible(s.consent, e.event)
    requires s.released <= s.consent.cited
    ensures var s', event := Apply(origins, s, e), EventOf(origins, e);
            && s'.consent == (if event.None? then s.consent else GrantSafety.Apply(origins, s.consent, event.value))
            && s'.released <= s'.consent.cited
  {
  }

  /** A run of the broker is a run of the consent log underneath. */
  lemma {:induction false} ConsentRunUnderneath(origins: Origins, trace: seq<State>, events: seq<Event>, n: nat)
      returns (below: seq<GrantSafety.State>, doings: seq<GrantSafety.Event>)
    requires IsRun(origins, trace, events) && n < |trace|
    ensures GrantSafety.IsRun(origins, below, doings) && below[|below| - 1] == trace[n].consent
    ensures trace[n].released <= trace[n].consent.cited
  {
    if n == 0 {
      return [GrantSafety.Start(trace[0].consent.file)], [];
    }
    below, doings := ConsentRunUnderneath(origins, trace, events, n - 1);
    StepUnderneath(origins, trace[n - 1], events[n - 1]);
    assert trace[n - 1 + 1] == Apply(origins, trace[n - 1], events[n - 1]);
    var event := EventOf(origins, events[n - 1]);
    if event.Some? {
      RunExtended(origins, below, doings, event.value);
      below := below + [GrantSafety.Apply(origins, trace[n - 1].consent, event.value)];
      doings := doings + [event.value];
    }
  }

  lemma RunExtended(origins: Origins, below: seq<GrantSafety.State>, doings: seq<GrantSafety.Event>,
                    event: GrantSafety.Event)
    requires GrantSafety.IsRun(origins, below, doings) && GrantSafety.Possible(below[|below| - 1], event)
    ensures GrantSafety.IsRun(origins, below + [GrantSafety.Apply(origins, below[|below| - 1], event)],
                              doings + [event])
  {
    var longer := below + [GrantSafety.Apply(origins, below[|below| - 1], event)];
    var events := doings + [event];
    forall i | 0 <= i < |events|
      ensures GrantSafety.Possible(longer[i], events[i])
           && longer[i + 1] == GrantSafety.Apply(origins, longer[i], events[i])
    {
      if i < |doings| {
        assert events[i] == doings[i] && longer[i] == below[i] && longer[i + 1] == below[i + 1];
      }
    }
  }

  /** Values released never exceed uses recorded, grant by grant, and so exceed what the grant allowed by at most
      the counts that ran into unfinished lines: by none if no append was ever cut short. */
  lemma ReleasesAreAccounted(origins: Origins, trace: seq<State>, events: seq<Event>, n: nat, id: string)
    requires IsRun(origins, trace, events) && n < |trace|
    ensures var s := trace[n].consent;
            && trace[n].released <= s.cited
            && trace[n].released[id] <= (if id in s.granted then Left(s.granted[id]) else 0) + s.lost[id]
            && |s.lost| <= s.cuts
            && (s.cuts == 0 ==> trace[n].released[id] <= if id in s.granted then Left(s.granted[id]) else 0)
  {
    var below, doings := ConsentRunUnderneath(origins, trace, events, n);
    GrantSafety.NeverOverspent(origins, below, doings, |below| - 1, id);
    assert trace[n].released[id] <= trace[n].consent.cited[id];
  }
}

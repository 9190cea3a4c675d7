/** Credential handles `kch:<agent>/<scope>/<kind>/<slug>`: the printer, the parser and the keychain keys. */
module CredentialHandles {
  import opened Text

  datatype CredentialKind = Password | Totp | ApiKey | Note | Passkey {
    function AsStr(): string {
      match this
      case Password => "password"
      case Totp => "totp"
      case ApiKey => "api-key"
      case Note => "note"
      case Passkey => "passkey"
    }
  }

  function KindFromStr(s: string): Option<CredentialKind> {
    match s
    case "password" => Some(Password)
    case "totp" => Some(Totp)
    case "api-key" => Some(ApiKey)
    case "note" => Some(Note)
    case "passkey" => Some(Passkey)
    case _ => None
  }

  datatype CredentialParts = CredentialParts(agentId: string, scope: string, kind: CredentialKind, slug: string)

  const HANDLE_PREFIX := "kch:"
  const SERVICE_PREFIX := "com.oxibrowser.agent"

  /** One handle component: not empty, no separator. */
  predicate Component(s: string) { s != "" && '/' !in s }

  predicate ValidParts(p: CredentialParts) { Component(p.agentId) && Component(p.scope) && Component(p.slug) }

  /** `CredentialId::format`: `None` is `CredError::Invalid`. */
  function Format(p: CredentialParts): Option<string> {
    if !Component(p.agentId) || !Component(p.scope) || !Component(p.slug) then None
    else Some(HANDLE_PREFIX + p.agentId + "/" + p.scope + "/" + p.kind.AsStr() + "/" + p.slug)
  }

  /** `CredentialId::parse`: the pieces are taken one by one, a missing one reads as empty, except the kind. */
  function Parse(handle: string): Option<CredentialParts> {
    if |handle| < 4 || handle[..4] != HANDLE_PREFIX then None
    else
      var segs := Split(handle[4..], '/');
      var agent := segs[0];
      var scope := if |segs| > 1 then segs[1] else "";
      if |segs| <= 2 then None
      else
        var kind := KindFromStr(segs[2]);
        if kind.None? then None
        else
          var slug := if |segs| > 3 then segs[3] else "";
          if |segs| > 4 then None
          else if !Component(agent) || !Component(scope) || !Component(slug) then None
          else Some(CredentialParts(agent, scope, kind.value, slug))
  }

  function ServiceKey(agentId: string, scope: string): string { SERVICE_PREFIX + "/" + agentId + "/" + scope }

  function AccountKey(kind: CredentialKind, slug: string): string { kind.AsStr() + "/" + slug }

  lemma KindRoundTrip(k: CredentialKind, s: string)
    ensures KindFromStr(k.AsStr()) == Some(k) && '/' !in k.AsStr()
    ensures KindFromStr(s) == Some(k) <==> s == k.AsStr()
  {
  }

  lemma JoinFour(a: string, b: string, c: string, d: string)
    ensures Join([a, b, c, d], '/') == a + "/" + b + "/" + c + "/" + d
  {
    assert [a, b, c, d][1..] == [b, c, d] && [b, c, d][1..] == [c, d] && [c, d][1..] == [d];
    assert Join([c, d], '/') == c + "/" + d;
    assert Join([b, c, d], '/') == b + "/" + Join([c, d], '/');
  }

  lemma FormatIsJoin(p: CredentialParts)
    requires ValidParts(p)
    ensures Format(p) == Some(HANDLE_PREFIX + Join([p.agentId, p.scope, p.kind.AsStr(), p.slug], '/'))
  {
    JoinFour(p.agentId, p.scope, p.kind.AsStr(), p.slug);
    assert HANDLE_PREFIX + (p.agentId + "/" + p.scope + "/" + p.kind.AsStr() + "/" + p.slug)
        == HANDLE_PREFIX + p.agentId + "/" + p.scope + "/" + p.kind.AsStr() + "/" + p.slug;
  }

  /** Parsing a printed handle gives its parts back; exactly the valid parts can be printed. */
  lemma ParseFormat(p: CredentialParts)
    ensures Format(p).Some? <==> ValidParts(p)
    ensures Format(p).Some? ==> Parse(Format(p).value) == Some(p)
  {
    if ValidParts(p) {
      FormatIsJoin(p);
      KindRoundTrip(p.kind, "");
      var pieces := [p.agentId, p.scope, p.kind.AsStr(), p.slug];
      SplitJoin(pieces, '/');
      assert Format(p).value[4..] == Join(pieces, '/');
    }
  }

  /** Printing what was parsed gives the very same handle, and what was parsed is valid. */
  lemma FormatParse(handle: string)
    requires Parse(handle).Some?
    ensures ValidParts(Parse(handle).value) && Format(Parse(handle).value) == Some(handle)
  {
    var p := Parse(handle).value;
    var segs := Split(handle[4..], '/');
    JoinSplit(handle[4..], '/');
    KindRoundTrip(p.kind, segs[2]);
    FormatIsJoin(p);
    assert segs == [p.agentId, p.scope, p.kind.AsStr(), p.slug];
    assert handle == handle[..4] + handle[4..];
  }

  /** The accepted handles are exactly the printed ones, so no two parts share a handle. */
  lemma AcceptedIffPrinted(handle: string)
    ensures Parse(handle).Some? <==> exists p :: Format(p) == Some(handle)
  {
    if Parse(handle).Some? {
      FormatParse(handle);
    }
    if p :| Format(p) == Some(handle) {
      ParseFormat(p);
    }
  }

  /** What is printed and stored, spelt out. */
  lemma Spelling(p: CredentialParts, handle: string)
    requires Format(p) == Some(handle)
    ensures handle == "kch:" + Join([p.agentId, p.scope, p.kind.AsStr(), p.slug], '/')
    ensures ServiceKey(p.agentId, p.scope) == "com.oxibrowser.agent/" + p.agentId + "/" + p.scope
    ensures AccountKey(p.kind, p.slug) == p.kind.AsStr() + "/" + p.slug
    ensures p.kind.AsStr() == if p.kind == Password then "password" else if p.kind == Totp then "totp"
                              else if p.kind == ApiKey then "api-key" else if p.kind == Note then "note" else "passkey"
  {
    FormatIsJoin(p);
    assert SERVICE_PREFIX + "/" + p.agentId == "com.oxibrowser.agent/" + p.agentId;
  }

  /** Two valid credentials never share a (service, account) key pair. */
  lemma KeysAreInjective(p: CredentialParts, q: CredentialParts)
    requires ValidParts(p) && ValidParts(q)
    requires ServiceKey(p.agentId, p.scope) == ServiceKey(q.agentId, q.scope)
    requires AccountKey(p.kind, p.slug) == AccountKey(q.kind, q.slug)
    ensures p == q
  {
    var n := |SERVICE_PREFIX| + 1;
    assert ServiceKey(p.agentId, p.scope)[n..] == Join([p.agentId, p.scope], '/') by {
      assert [p.agentId, p.scope][1..] == [p.scope];
    }
    assert ServiceKey(q.agentId, q.scope)[n..] == Join([q.agentId, q.scope], '/') by {
      assert [q.agentId, q.scope][1..] == [q.scope];
    }
    assert AccountKey(p.kind, p.slug) == Join([p.kind.AsStr(), p.slug], '/') by {
      assert [p.kind.AsStr(), p.slug][1..] == [p.slug];
    }
    assert AccountKey(q.kind, q.slug) == Join([q.kind.AsStr(), q.slug], '/') by {
      assert [q.kind.AsStr(), q.slug][1..] == [q.slug];
    }
    KindRoundTrip(p.kind, "");
    KindRoundTrip(q.kind, "");
    SplitJoin([p.agentId, p.scope], '/');
    SplitJoin([q.agentId, q.scope], '/');
    SplitJoin([p.kind.AsStr(), p.slug], '/');
    SplitJoin([q.kind.AsStr(), q.slug], '/');
    assert [p.agentId, p.scope][0] == [q.agentId, q.scope][0];
    assert [p.agentId, p.scope][1] == [q.agentId, q.scope][1];
    assert [p.kind.AsStr(), p.slug][0] == [q.kind.AsStr(), q.slug][0];
    assert [p.kind.AsStr(), p.slug][1] == [q.kind.AsStr(), q.slug][1];
  }
}

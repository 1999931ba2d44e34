/** Deciding one authorization request: the first authenticator that can handle it runs, alone,
    and its answer is final. */
module Dispatch {
  import opened Text
  import opened Permissions

  /** The parts of a request that the decision depends on; chains is None without TLS. */
  datatype Request = Request(token: string, username: string, password: string,
                             chains: Option<seq<seq<string>>>, nkey: string, signedNonce: string, nonce: string)

  datatype Claims = Claims(subject: string, azp: string, scope: string, scopes: seq<string>)

  datatype Cert = Cert(commonName: string, emails: seq<string>, dnsNames: seq<string>,
                       organizations: seq<string>, units: seq<string>)

  /** The cryptographic checks, each a fixed function: a valid token's claims, a certificate that
      parses and verifies, and whether a signature of the nonce belongs to the key. */
  datatype Oracles = Oracles(checkToken: string -> Option<Claims>, checkCert: string -> Option<Cert>,
                             verifies: (string, string, string) -> bool)

  datatype Auth = OAuth2 | MTLS | NKey | NoAuth

  datatype Decision =
    | Issued(auth: Auth, profile: Profile)
    | Rejected(auth: Auth)
    | NoAuthenticator

  predicate HasChain(req: Request) {
    req.chains.Some? && |req.chains.value| > 0
  }

  predicate CanAuthenticate(a: Auth, req: Request) {
    match a
    case OAuth2 => req.token != "" || (req.username == "oauthtoken" && req.password != "")
    case MTLS => HasChain(req)
    case NKey => req.nkey != ""
    case NoAuth => req.token == "" && !HasChain(req) && req.nkey == ""
  }

  // ---------------------------------------------------------------- one authenticator

  predicate IsGoSpace(c: char) {
    c == ' ' || '\t' <= c <= '\r'
  }

  /** `strings.Fields`. */
  function Fields(s: string, current: string): seq<string> {
    var flushed := if current == "" then [] else [current];
    if s == "" then flushed
    else if IsGoSpace(s[0]) then flushed + Fields(s[1..], "")
    else Fields(s[1..], current + [s[0]])
  }

  predicate IsWord(w: string) {
    w != "" && forall i :: 0 <= i < |w| ==> !IsGoSpace(w[i])
  }

  lemma {:induction false} FieldsWord(w: string, rest: string, current: string)
    requires forall i :: 0 <= i < |w| ==> !IsGoSpace(w[i])
    ensures Fields(w + rest, current) == Fields(rest, current + w)
  {
    if w == "" {
      assert w + rest == rest && current + w == current;
    } else {
      assert (w + rest)[1..] == w[1..] + rest;
      FieldsWord(w[1..], rest, current + [w[0]]);
      assert current + [w[0]] + w[1..] == current + w;
    }
  }

  /** A scope string of words with single blanks between them is read as these words. */
  lemma {:induction false} FieldsRead(words: seq<string>)
    requires forall i :: 0 <= i < |words| ==> IsWord(words[i])
    ensures Fields(Join(words, " "), "") == words
  {
    if |words| == 1 {
      assert IsWord(words[0]) && words[0] + "" == words[0] && "" + words[0] == words[0];
      FieldsWord(words[0], "", "");
    } else if |words| > 1 {
      var rest := Join(words[1..], " ");
      assert IsWord(words[0]) && "" + words[0] == words[0];
      JoinCons(words[0], words[1..], " ");
      assert [words[0]] + words[1..] == words;
      assert words[0] + " " + rest == words[0] + (" " + rest);
      FieldsWord(words[0], " " + rest, "");
      assert (" " + rest)[1..] == rest;
      FieldsRead(words[1..]);
    }
  }

  predicate HasScope(c: Claims, required: string) {
    required in (if c.scope != "" then Fields(c.scope, "") else c.scopes)
  }

  function Dots(s: string): nat {
    if s == "" then 0 else (if s[0] == '.' then 1 else 0) + Dots(s[1..])
  }

  function TokenOf(req: Request): string {
    if req.token == "" && req.username == "oauthtoken" then req.password else req.token
  }

  /** Common name, then first e-mail address, first DNS name, organization, unit. */
  function IdentityOf(c: Cert): string {
    if c.commonName != "" then "CN=" + c.commonName
    else if |c.emails| > 0 then c.emails[0]
    else if |c.dnsNames| > 0 then c.dnsNames[0]
    else if |c.organizations| > 0 then "O=" + c.organizations[0]
    else if |c.units| > 0 then "OU=" + c.units[0]
    else ""
  }

  /** What an authenticator asks the permissions for, once its own checks have passed. */
  datatype Query =
    | Fails
    | AskOAuth2(claims: Claims)
    | AskMTLS(identity: string)
    | AskNKey(key: string)
    | AskNoAuth

  function QueryOf(a: Auth, req: Request, oracles: Oracles): Query {
    match a
    case OAuth2 =>
      var token := TokenOf(req);
      if token == "" || Dots(token) != 2 || oracles.checkToken(token).None? then Fails
      else AskOAuth2(oracles.checkToken(token).value)
    case MTLS =>
      if !HasChain(req) || |req.chains.value[0]| == 0 then Fails
      else
        var cert := oracles.checkCert(req.chains.value[0][0]);
        if cert.None? || IdentityOf(cert.value) == "" then Fails else AskMTLS(IdentityOf(cert.value))
    case NKey => if req.nkey == "" then Fails else AskNKey(req.nkey)
    case NoAuth => if CanAuthenticate(NoAuth, req) then AskNoAuth else Fails
  }

  /** The one table that the query reads, as one atomic pointer load sees it. */
  datatype Snapshot =
    | OAuth2Table(otable: OTable)
    | MTLSTable(mtable: Table)
    | NKeyTable(ntable: Table)
    | NoAuthSlot(slot: Option<Profile>)

  function SnapshotOf(q: Query, t: Tables): Snapshot
    requires !q.Fails?
  {
    match q
    case AskOAuth2(_) => OAuth2Table(t.oauth2)
    case AskMTLS(_) => MTLSTable(t.mtls)
    case AskNKey(_) => NKeyTable(t.nkey)
    case AskNoAuth => NoAuthSlot(t.noauth)
  }

  /** The answer from the table read; the NKey signature is checked after the lookup. */
  function AnswerOf(q: Query, s: Snapshot, req: Request, oracles: Oracles): Option<Profile> {
    match (q, s)
    case (AskOAuth2(claims), OAuth2Table(t)) =>
      (match FindOAuth2(t, claims.subject, claims.azp)
       case None => None
       case Some(p) => if HasScope(claims, p.requiredScope) then Some(p.profile) else None)
    case (AskMTLS(identity), MTLSTable(t)) => FindProfile(t, identity)
    case (AskNKey(key), NKeyTable(t)) =>
      (match FindProfile(t, key)
       case None => None
       case Some(p) =>
         if req.signedNonce != "" && oracles.verifies(key, req.nonce, req.signedNonce) then Some(p) else None)
    case (AskNoAuth, NoAuthSlot(p)) => p
    case _ => None
  }

  function TryAuthenticate(a: Auth, req: Request, oracles: Oracles, t: Tables): Option<Profile> {
    var q := QueryOf(a, req, oracles);
    if q.Fails? then None else AnswerOf(q, SnapshotOf(q, t), req, oracles)
  }

  // ---------------------------------------------------------------- the dispatch

  function FirstMatching(auths: seq<Auth>, req: Request): Option<Auth> {
    if auths == [] then None
    else if CanAuthenticate(auths[0], req) then Some(auths[0])
    else FirstMatching(auths[1..], req)
  }

  function DecisionOf(a: Auth, p: Option<Profile>): Decision {
    if p.Some? then Issued(a, p.value) else Rejected(a)
  }

  /** The sequential decision under one complete configuration. */
  function Decide(auths: seq<Auth>, req: Request, oracles: Oracles, t: Tables): Decision {
    match FirstMatching(auths, req)
    case None => NoAuthenticator
    case Some(a) => DecisionOf(a, TryAuthenticate(a, req, oracles, t))
  }

  /** The authenticators in priority order; OAuth2 and mTLS are optional. */
  method NewAuthenticators(jwksUrl: string, caPath: string) returns (auths: seq<Auth>)
    ensures auths == AuthList(jwksUrl != "", caPath != "")
  {
    auths := [];
    if jwksUrl != "" {
      auths := auths + [OAuth2];
    }
    if caPath != "" {
      auths := auths + [MTLS];
    }
    auths := auths + [NKey];
    auths := auths + [NoAuth];
  }

  function AuthList(oauth2: bool, mtls: bool): seq<Auth> {
    (if oauth2 then [OAuth2] else []) + (if mtls then [MTLS] else []) + [NKey, NoAuth]
  }

  method HandleAuthRequest(
      auths: seq<Auth>, req: Request, oracles: Oracles, pm: PermissionsManager) returns (d: Decision)
    requires pm.Ready()
    ensures d == Decide(auths, req, oracles, pm.Current())
  {
    hide CanAuthenticate;
    var matched := false;
    for i := 0 to |auths|
      invariant !matched && FirstMatching(auths[i..], req) == FirstMatching(auths, req)
    {
      assert auths[i..][1..] == auths[i + 1..];
      if CanAuthenticate(auths[i], req) {
        matched := true;
        var userProfile := RunAuthenticator(auths[i], req, oracles, pm);
        if userProfile.Some? {
          return Issued(auths[i], userProfile.value);
        }
        return Rejected(auths[i]);
      }
    }
    d := NoAuthenticator;
  }

  method RunAuthenticator(a: Auth, req: Request, oracles: Oracles, pm: PermissionsManager) returns (r: Option<Profile>)
    requires pm.Ready()
    ensures r == TryAuthenticate(a, req, oracles, pm.Current())
  {
    match QueryOf(a, req, oracles) {
      case Fails =>
        r := None;
      case AskOAuth2(claims) =>
        var entry := pm.GetOAuth2Profile(claims.subject, claims.azp);
        r := if entry.Some? && HasScope(claims, entry.value.requiredScope) then Some(entry.value.profile) else None;
      case AskMTLS(identity) =>
        r := pm.GetMTLSProfile(identity);
      case AskNKey(key) =>
        var p := pm.GetNKeyProfile(key);
        r := if p.Some? && req.signedNonce != "" && oracles.verifies(key, req.nonce, req.signedNonce) then p else None;
      case AskNoAuth =>
        r := pm.GetNoAuthProfile();
    }
  }

  // ---------------------------------------------------------------- what is decided

  /** A request goes undecided exactly when it carries a credential of a disabled method and none
      of an enabled one. */
  lemma UnmatchedMeaning(oauth2: bool, mtls: bool, req: Request)
    ensures FirstMatching(AuthList(oauth2, mtls), req).None? <==>
      && req.nkey == ""
      && !(oauth2 && CanAuthenticate(OAuth2, req)) && !(mtls && HasChain(req))
      && ((!oauth2 && req.token != "") || (!mtls && HasChain(req)))
  {
    FirstOfList(oauth2, mtls, req);
  }

  lemma FirstOfList(oauth2: bool, mtls: bool, req: Request)
    ensures FirstMatching(AuthList(oauth2, mtls), req)
         == if oauth2 && CanAuthenticate(OAuth2, req) then Some(OAuth2)
            else if mtls && CanAuthenticate(MTLS, req) then Some(MTLS)
            else if CanAuthenticate(NKey, req) then Some(NKey)
            else if CanAuthenticate(NoAuth, req) then Some(NoAuth)
            else None
  {
    hide CanAuthenticate;
    var tail := [NKey, NoAuth];
    assert tail[1..] == [NoAuth] && tail[1..][1..] == [];
    assert FirstMatching([NoAuth], req) == if CanAuthenticate(NoAuth, req) then Some(NoAuth) else None;
    assert FirstMatching(tail, req) == if CanAuthenticate(NKey, req) then Some(NKey) else FirstMatching([NoAuth], req);
    var middle := (if mtls then [MTLS] else []) + tail;
    assert mtls ==> middle[1..] == tail;
    assert !mtls ==> middle == tail;
    assert FirstMatching(middle, req)
        == if mtls && CanAuthenticate(MTLS, req) then Some(MTLS) else FirstMatching(tail, req);
    var list := AuthList(oauth2, mtls);
    assert oauth2 ==> list == [OAuth2] + middle && list[1..] == middle;
    assert !oauth2 ==> list == middle;
  }

  /** With all methods enabled some authenticator always matches; and the anonymous profile is
      issued exactly to requests without token, chain and NKey (and, where OAuth2 is enabled, without
      a password for the user oauthtoken), when one is configured. */
  lemma DispatchMeaning(oauth2: bool, mtls: bool, req: Request, oracles: Oracles, t: Tables)
    ensures oauth2 && mtls ==> Decide(AuthList(oauth2, mtls), req, oracles, t) != NoAuthenticator
    ensures forall p :: Decide(AuthList(oauth2, mtls), req, oracles, t) == Issued(NoAuth, p) <==>
              && req.token == "" && !HasChain(req) && req.nkey == ""
              && !(oauth2 && req.username == "oauthtoken" && req.password != "")
              && t.noauth == Some(p)
  {
    FirstOfList(oauth2, mtls, req);
  }

  /** A failed authenticator is final: a request is rejected by the first one that can handle it,
      whatever the later ones would have said. */
  lemma FailureIsFinal(auths: seq<Auth>, req: Request, oracles: Oracles, t: Tables, i: nat)
    requires i < |auths| && CanAuthenticate(auths[i], req)
    requires forall k :: 0 <= k < i ==> !CanAuthenticate(auths[k], req)
    ensures Decide(auths, req, oracles, t) == DecisionOf(auths[i], TryAuthenticate(auths[i], req, oracles, t))
  {
    FirstAt(auths, req, i);
  }

  lemma {:induction false} FirstAt(auths: seq<Auth>, req: Request, i: nat)
    requires i < |auths| && CanAuthenticate(auths[i], req)
    requires forall k :: 0 <= k < i ==> !CanAuthenticate(auths[k], req)
    ensures FirstMatching(auths, req) == Some(auths[i])
  {
    hide CanAuthenticate;
    if i > 0 {
      FirstAt(auths[1..], req, i - 1);
    }
  }

  /** An issued OAuth2 profile belongs to an entry that the token's identifiers match and whose
      required scope the token has. */
  lemma OAuth2IssueMeaning(auths: seq<Auth>, req: Request, oracles: Oracles, expand: Expand, c: Config, t: Tables)
    requires IsTablesOf(expand, c, t) && IsAcceptable(expand, c)
    requires Decide(auths, req, oracles, t).Issued? && Decide(auths, req, oracles, t).auth == OAuth2
    ensures oracles.checkToken(TokenOf(req)).Some?
    ensures var claims := oracles.checkToken(TokenOf(req)).value;
            exists name :: name in c.oauth2 && Identifies(KeyOf(expand, c.oauth2[name]), claims.subject, claims.azp)
                           && Decide(auths, req, oracles, t).profile == OProfileOf(expand, name, c.oauth2[name]).profile
                           && HasScope(claims, OProfileOf(expand, name, c.oauth2[name]).requiredScope)
  {
    hide KeyOf, OProfileOf, IsAcceptable, HasScope, FindOAuth2;
    var claims := oracles.checkToken(TokenOf(req)).value;
    OAuth2Matches(expand, c, t.oauth2, claims.subject, claims.azp);
  }

  /** An issued mTLS profile is that of an entry with the verified certificate's identity; an issued
      NKey profile that of an entry with the presented key, whose signature of the nonce verified. */
  lemma KeyedIssueMeaning(auths: seq<Auth>, req: Request, oracles: Oracles, expand: Expand, c: Config, t: Tables)
    requires IsTablesOf(expand, c, t) && Decide(auths, req, oracles, t).Issued?
    ensures var d := Decide(auths, req, oracles, t);
            d.auth == MTLS ==>
              && HasChain(req) && |req.chains.value[0]| > 0 && oracles.checkCert(req.chains.value[0][0]).Some?
              && var identity := IdentityOf(oracles.checkCert(req.chains.value[0][0]).value);
                 identity != "" && exists name :: name in c.mtls && expand(c.mtls[name].key) == identity
                                                  && d.profile == ProfileOf(expand, name, c.mtls[name])
    ensures var d := Decide(auths, req, oracles, t);
            d.auth == NKey ==>
              && req.signedNonce != "" && oracles.verifies(req.nkey, req.nonce, req.signedNonce)
              && exists name :: name in c.nkey && expand(c.nkey[name].key) == req.nkey
                                && d.profile == ProfileOf(expand, name, c.nkey[name])
  {
    hide ProfileOf, IsOAuth2Index, IdentityOf, FirstMatching, FindOAuth2, HasScope;
  }
}

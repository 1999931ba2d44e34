/** What each method decides, in the fields of the request, of the claims or the certificate, and of
    the configured entries. */
module Decisions {
  import opened Text
  import opened Permissions
  import opened Dispatch

  // ---------------------------------------------------------------- which method decides

  /** The method that decides: the first enabled one whose credential the request has; without any
      credential the anonymous one; otherwise none. */
  lemma MethodMeaning(oauth2: bool, mtls: bool, req: Request, oracles: Oracles, t: Tables)
    ensures var token := req.token != "" || (req.username == "oauthtoken" && req.password != "");
            var chain := req.chains.Some? && req.chains.value != [];
            Decide(AuthList(oauth2, mtls), req, oracles, t)
            == if oauth2 && token then DecisionOf(OAuth2, TryAuthenticate(OAuth2, req, oracles, t))
               else if mtls && chain then DecisionOf(MTLS, TryAuthenticate(MTLS, req, oracles, t))
               else if req.nkey != "" then DecisionOf(NKey, TryAuthenticate(NKey, req, oracles, t))
               else if req.token == "" && !chain then DecisionOf(NoAuth, TryAuthenticate(NoAuth, req, oracles, t))
               else NoAuthenticator
  {
    hide TryAuthenticate, FirstMatching;
    FirstOfList(oauth2, mtls, req);
  }

  // ---------------------------------------------------------------- scopes and tokens

  predicate IsBlank(c: char) {
    c == ' ' || c == '\t' || c == '\n' || c == '\U{0B}' || c == '\U{0C}' || c == '\r'
  }

  predicate IsBetween(s: string, a: string, w: string, b: string) {
    s == a + w + b && (a != "" ==> IsBlank(a[|a| - 1])) && (b != "" ==> IsBlank(b[0]))
  }

  /** w stands in s as a word, between white space or the ends. */
  ghost predicate IsWordOf(s: string, w: string) {
    w != "" && (forall i :: 0 <= i < |w| ==> !IsBlank(w[i])) && exists a, b :: IsBetween(s, a, w, b)
  }

  lemma BlankMeaning(c: char)
    ensures IsGoSpace(c) <==> IsBlank(c)
  {
  }

  function WordEnd(s: string): (n: nat)
    ensures n <= |s| && (forall i :: 0 <= i < n ==> !IsBlank(s[i])) && (n < |s| ==> IsBlank(s[n]))
  {
    if s == "" || IsBlank(s[0]) then 0 else 1 + WordEnd(s[1..])
  }

  lemma HeadIsWord(s: string)
    requires WordEnd(s) > 0
    ensures IsWordOf(s, s[..WordEnd(s)])
  {
    var n := WordEnd(s);
    var u, rest := s[..n], s[n..];
    assert s == "" + u + rest;
    assert IsBetween(s, "", u, rest);
  }

  lemma Shifted(s: string, n: nat, a: string, w: string, b: string)
    requires n < |s| && IsBlank(s[n]) && IsBetween(s[n + 1..], a, w, b)
    ensures IsBetween(s, s[..n + 1] + a, w, b)
  {
    hide IsBlank;
    var all := s[..n + 1] + a;
    assert s == s[..n + 1] + (a + w + b) == all + w + b;
    assert all[|all| - 1] == if a == "" then s[n] else a[|a| - 1];
  }

  lemma LaterWord(s: string, w: string)
    requires WordEnd(s) < |s| && IsWordOf(s[WordEnd(s) + 1..], w)
    ensures IsWordOf(s, w)
  {
    hide IsBetween, WordEnd;
    var n := WordEnd(s);
    var a, b :| IsBetween(s[n + 1..], a, w, b);
    Shifted(s, n, a, w, b);
  }

  lemma WordIsHead(s: string, w: string, b: string)
    requires w != "" && (forall i :: 0 <= i < |w| ==> !IsBlank(w[i])) && IsBetween(s, "", w, b)
    ensures WordEnd(s) == |w| && s[..WordEnd(s)] == w
  {
    assert "" + w == w && s == w + b;
    assert forall i :: 0 <= i < |w| ==> s[i] == w[i];
    assert b != "" ==> s[|w|] == b[0];
  }

  lemma WordIsLater(s: string, a: string, w: string, b: string) returns (later: string)
    requires a != "" && IsBetween(s, a, w, b)
    ensures WordEnd(s) < |s| && IsBetween(s[WordEnd(s) + 1..], later, w, b)
  {
    hide IsBlank;
    var n := WordEnd(s);
    assert s[|a| - 1] == a[|a| - 1];
    assert n < |a|;
    later := a[n + 1..];
    assert s[n + 1..] == later + w + b;
    assert later != "" ==> later[|later| - 1] == a[|a| - 1];
  }

  lemma FirstWord(s: string, w: string)
    ensures var n := WordEnd(s);
            IsWordOf(s, w) <==> (n > 0 && w == s[..n]) || (n < |s| && IsWordOf(s[n + 1..], w))
  {
    hide IsBetween, IsBlank;
    var n := WordEnd(s);
    if n > 0 {
      HeadIsWord(s);
    }
    if n < |s| && IsWordOf(s[n + 1..], w) {
      LaterWord(s, w);
    }
    if IsWordOf(s, w) {
      var a, b :| IsBetween(s, a, w, b);
      if a == "" {
        WordIsHead(s, w, b);
      } else {
        var later := WordIsLater(s, a, w, b);
      }
    }
  }

  /** `strings.Fields` gives exactly the words. */
  lemma {:induction false} FieldsMeaning(s: string, w: string)
    ensures w in Fields(s, "") <==> IsWordOf(s, w)
    decreases |s|
  {
    hide IsWordOf;
    forall c ensures IsGoSpace(c) <==> IsBlank(c) { BlankMeaning(c); }
    var n := WordEnd(s);
    var u, rest := s[..n], s[n..];
    FirstWord(s, w);
    FieldsWord(u, rest, "");
    assert u + rest == s && "" + u == u;
    if rest != "" {
      assert rest[1..] == s[n + 1..];
      FieldsMeaning(s[n + 1..], w);
    }
  }

  /** The token has the scope: as a word of the scope string, or, without such a string, in the list. */
  ghost predicate IsScopeOf(claims: Claims, scope: string) {
    if claims.scope != "" then IsWordOf(claims.scope, scope) else scope in claims.scopes
  }

  lemma ScopeMeaning(claims: Claims, scope: string)
    ensures HasScope(claims, scope) <==> IsScopeOf(claims, scope)
  {
    FieldsMeaning(claims.scope, scope);
  }

  lemma {:induction false} DotsMeaning(s: string)
    ensures |Split(s, '.')| == Dots(s) + 1
  {
    if s != "" {
      DotsMeaning(s[1..]);
    }
  }

  // ---------------------------------------------------------------- OAuth2

  predicate HasKeys(expand: Expand, e: OAuth2Entry, subject: string, azp: string) {
    expand(e.subject) == subject && expand(e.azp) == azp
  }

  predicate NoneWith(expand: Expand, entries: map<string, OAuth2Entry>, subject: string, azp: string) {
    forall n :: n in entries ==> !HasKeys(expand, entries[n], subject, azp)
  }

  /** The entry has the token's subject and azp; or, if none has both, its subject and no azp; or, if
      none has that either, its azp and no subject. */
  predicate IsEntryFor(expand: Expand, entries: map<string, OAuth2Entry>, subject: string, azp: string, n: string) {
    && n in entries
    && (|| HasKeys(expand, entries[n], subject, azp)
        || (HasKeys(expand, entries[n], subject, "") && NoneWith(expand, entries, subject, azp))
        || (HasKeys(expand, entries[n], "", azp) && NoneWith(expand, entries, subject, azp)
            && NoneWith(expand, entries, subject, "")))
  }

  function ScopeFor(expand: Expand, e: OAuth2Entry): string {
    if expand(e.requiredScope) == "" then "mqtt" else expand(e.requiredScope)
  }

  predicate IsOneEach(expand: Expand, entries: map<string, OAuth2Entry>) {
    forall m, n :: m in entries && n in entries && m != n ==>
      expand(entries[m].subject) != expand(entries[n].subject) || expand(entries[m].azp) != expand(entries[n].azp)
  }

  lemma AcceptableMeaning(expand: Expand, c: Config)
    ensures IsAcceptable(expand, c) <==>
              forall n :: n in c.oauth2 ==> expand(c.oauth2[n].subject) != "" || expand(c.oauth2[n].azp) != ""
  {
  }

  /** What the lookup returns is the profile and the scope of an entry for the token, and it fails only
      when there is none. */
  lemma LookupMeaning(expand: Expand, entries: map<string, OAuth2Entry>, t: OTable, subject: string, azp: string)
    requires IsOAuth2Index(expand, entries, t)
    ensures var r := FindOAuth2(t, subject, azp);
            && (r.None? <==> !exists n :: IsEntryFor(expand, entries, subject, azp, n))
            && (r.Some? ==> exists n ::
                  IsEntryFor(expand, entries, subject, azp, n)
                  && r.value == OProfile(Profile(n, expand(entries[n].account), entries[n].permissions),
                                         ScopeFor(expand, entries[n])))
  {
    hide OProfileOf, IsEntryFor;
    KeyedBy(expand, entries, t, subject, azp);
    KeyedBy(expand, entries, t, subject, "");
    KeyedBy(expand, entries, t, "", azp);
    forall n | n in entries
      ensures OProfileOf(expand, n, entries[n])
           == OProfile(Profile(n, expand(entries[n].account), entries[n].permissions), ScopeFor(expand, entries[n]))
    {
      ProfileMeaning(expand, n, entries[n]);
    }
    ByKind(expand, entries, t, subject, azp);
  }

  lemma ProfileMeaning(expand: Expand, n: string, e: OAuth2Entry)
    ensures OProfileOf(expand, n, e) == OProfile(Profile(n, expand(e.account), e.permissions), ScopeFor(expand, e))
  {
  }

  /** A key of the table is the key of some entry, and the other way round. */
  lemma KeyedBy(expand: Expand, entries: map<string, OAuth2Entry>, t: OTable, subject: string, azp: string)
    requires IsOAuth2Index(expand, entries, t)
    ensures OKey(subject, azp) in t <==> !NoneWith(expand, entries, subject, azp)
    ensures OKey(subject, azp) in t ==> exists n ::
              n in entries && HasKeys(expand, entries[n], subject, azp)
              && t[OKey(subject, azp)] == OProfileOf(expand, n, entries[n])
  {
    hide OProfileOf;
    if OKey(subject, azp) in t {
      var n := SomeEntry(expand, entries, t, OKey(subject, azp));
      assert HasKeys(expand, entries[n], subject, azp);
    }
  }

  lemma ByKind(expand: Expand, entries: map<string, OAuth2Entry>, t: OTable, subject: string, azp: string)
    requires OKey(subject, azp) in t <==> !NoneWith(expand, entries, subject, azp)
    requires OKey(subject, "") in t <==> !NoneWith(expand, entries, subject, "")
    requires OKey("", azp) in t <==> !NoneWith(expand, entries, "", azp)
    ensures FindOAuth2(t, subject, azp).None? <==> !exists n :: IsEntryFor(expand, entries, subject, azp, n)
    ensures forall n :: n in entries && HasKeys(expand, entries[n], subject, azp) ==>
              IsEntryFor(expand, entries, subject, azp, n)
    ensures forall n :: n in entries && HasKeys(expand, entries[n], subject, "") && OKey(subject, azp) !in t ==>
              IsEntryFor(expand, entries, subject, azp, n)
    ensures forall n :: n in entries && HasKeys(expand, entries[n], "", azp)
                        && OKey(subject, azp) !in t && OKey(subject, "") !in t ==>
              IsEntryFor(expand, entries, subject, azp, n)
  {
    hide HasKeys;
    if FindOAuth2(t, subject, azp).Some? {
      if OKey(subject, azp) in t {
        var n :| n in entries && HasKeys(expand, entries[n], subject, azp);
        assert IsEntryFor(expand, entries, subject, azp, n);
      } else if OKey(subject, "") in t {
        var n :| n in entries && HasKeys(expand, entries[n], subject, "");
        assert IsEntryFor(expand, entries, subject, azp, n);
      } else {
        var n :| n in entries && HasKeys(expand, entries[n], "", azp);
        assert IsEntryFor(expand, entries, subject, azp, n);
      }
    }
  }

  /** What the OAuth2 method answers. The token, in the password of the user `oauthtoken` if there is
      no other, must have three parts and be valid, an entry be there for it, and the entry's scope be
      one of the token's; then the answer is the entry's profile. Entries with the same keys overwrite
      each other on loading, so that without them this is exact. */
  lemma OAuth2Answer(req: Request, oracles: Oracles, expand: Expand, c: Config, t: Tables)
    requires IsTablesOf(expand, c, t)
    ensures var token := if req.token == "" && req.username == "oauthtoken" then req.password else req.token;
            var claims := oracles.checkToken(token);
            var r := TryAuthenticate(OAuth2, req, oracles, t);
            && (|Split(token, '.')| != 3 || claims.None? ==> r.None?)
            && (r.Some? ==> exists n ::
                  && claims.Some? && IsEntryFor(expand, c.oauth2, claims.value.subject, claims.value.azp, n)
                  && IsScopeOf(claims.value, ScopeFor(expand, c.oauth2[n]))
                  && r.value == Profile(n, expand(c.oauth2[n].account), c.oauth2[n].permissions))
            && (|Split(token, '.')| == 3 && claims.Some?
                && (exists n :: IsEntryFor(expand, c.oauth2, claims.value.subject, claims.value.azp, n))
                && (forall n :: IsEntryFor(expand, c.oauth2, claims.value.subject, claims.value.azp, n) ==>
                      IsScopeOf(claims.value, ScopeFor(expand, c.oauth2[n])))
                ==> r.Some?)
  {
    hide IsEntryFor, IsScopeOf, FindOAuth2, HasScope, Dots, Split;
    var token := if req.token == "" && req.username == "oauthtoken" then req.password else req.token;
    DotsMeaning(token);
    NoDots();
    var claims := oracles.checkToken(token);
    if claims.Some? {
      LookupMeaning(expand, c.oauth2, t.oauth2, claims.value.subject, claims.value.azp);
      forall scope ensures HasScope(claims.value, scope) <==> IsScopeOf(claims.value, scope) {
        ScopeMeaning(claims.value, scope);
      }
    }
  }

  lemma NoDots()
    ensures Dots("") == 0
  {
  }

  lemma OneEntryFor(
      expand: Expand, entries: map<string, OAuth2Entry>, subject: string, azp: string, m: string, n: string)
    requires IsOneEach(expand, entries)
    requires IsEntryFor(expand, entries, subject, azp, m) && IsEntryFor(expand, entries, subject, azp, n)
    ensures m == n
  {
  }

  /** When no two entries have the same keys, a profile is issued exactly to the tokens described
      above, and it is that of the one entry for the token. */
  lemma OAuth2Decision(req: Request, oracles: Oracles, expand: Expand, c: Config, t: Tables, n: string)
    requires IsTablesOf(expand, c, t) && IsOneEach(expand, c.oauth2) && n in c.oauth2
    ensures var token := if req.token == "" && req.username == "oauthtoken" then req.password else req.token;
            var claims := oracles.checkToken(token);
            TryAuthenticate(OAuth2, req, oracles, t)
              == Some(Profile(n, expand(c.oauth2[n].account), c.oauth2[n].permissions)) <==>
              && |Split(token, '.')| == 3 && claims.Some?
              && IsEntryFor(expand, c.oauth2, claims.value.subject, claims.value.azp, n)
              && IsScopeOf(claims.value, ScopeFor(expand, c.oauth2[n]))
  {
    hide IsEntryFor, IsScopeOf, TryAuthenticate, IsOneEach, Split;
    OAuth2Answer(req, oracles, expand, c, t);
    var token := if req.token == "" && req.username == "oauthtoken" then req.password else req.token;
    var claims := oracles.checkToken(token);
    if claims.Some? {
      forall m, k | IsEntryFor(expand, c.oauth2, claims.value.subject, claims.value.azp, m)
                    && IsEntryFor(expand, c.oauth2, claims.value.subject, claims.value.azp, k)
        ensures m == k
      {
        OneEntryFor(expand, c.oauth2, claims.value.subject, claims.value.azp, m, k);
      }
    }
  }

  // ---------------------------------------------------------------- mTLS, NKey and none

  /** The first of these is the identity: the common name, the e-mail addresses, the DNS names, the
      organizations and the units; without any of them there is none. */
  predicate IsIdentityOf(cert: Cert, id: string) {
    var names := (if cert.commonName == "" then [] else ["CN=" + cert.commonName]) + cert.emails + cert.dnsNames
                 + Marked("O=", cert.organizations) + Marked("OU=", cert.units);
    id == if names == [] then "" else names[0]
  }

  function Marked(mark: string, values: seq<string>): (r: seq<string>)
    ensures |r| == |values|
  {
    seq(|values|, i requires 0 <= i < |values| => mark + values[i])
  }

  lemma IdentityMeaning(cert: Cert, id: string)
    ensures IdentityOf(cert) == id <==> IsIdentityOf(cert, id)
  {
  }

  predicate IsKeyedBy(expand: Expand, entries: map<string, KeyedEntry>, key: string, n: string) {
    n in entries && expand(entries[n].key) == key
  }

  lemma KeyedLookup(expand: Expand, entries: map<string, KeyedEntry>, t: Table, key: string)
    requires IsIndex(expand, entries, t)
    ensures var r := FindProfile(t, key);
            && (r.None? <==> !exists n :: IsKeyedBy(expand, entries, key, n))
            && (r.Some? ==> exists n ::
                  IsKeyedBy(expand, entries, key, n)
                  && r.value == Profile(n, expand(entries[n].account), entries[n].permissions))
  {
    if key in t {
      var n :| n in entries && expand(entries[n].key) == key && t[key] == ProfileOf(expand, n, entries[n]);
      assert IsKeyedBy(expand, entries, key, n);
    }
  }

  /** What the mTLS method answers: it takes the first certificate of the first chain, which must be
      valid and have an identity, and issues the profile of an entry with that identity, if there is
      one. */
  lemma MTLSAnswer(req: Request, oracles: Oracles, expand: Expand, c: Config, t: Tables)
    requires IsTablesOf(expand, c, t)
    ensures var r := TryAuthenticate(MTLS, req, oracles, t);
            if req.chains.Some? && req.chains.value != [] && req.chains.value[0] != []
               && oracles.checkCert(req.chains.value[0][0]).Some?
            then forall id :: IsIdentityOf(oracles.checkCert(req.chains.value[0][0]).value, id) ==>
                   && (r.Some? <==> id != "" && exists n :: IsKeyedBy(expand, c.mtls, id, n))
                   && (r.Some? ==> exists n ::
                         IsKeyedBy(expand, c.mtls, id, n)
                         && r.value == Profile(n, expand(c.mtls[n].account), c.mtls[n].permissions))
            else r.None?
  {
    hide IdentityOf, IsIdentityOf, FindProfile, IsKeyedBy;
    if HasChain(req) && |req.chains.value[0]| > 0 && oracles.checkCert(req.chains.value[0][0]).Some? {
      var cert := oracles.checkCert(req.chains.value[0][0]).value;
      forall id | IsIdentityOf(cert, id) ensures id == IdentityOf(cert) {
        IdentityMeaning(cert, id);
      }
      KeyedLookup(expand, c.mtls, t.mtls, IdentityOf(cert));
    }
  }

  /** What the NKey method answers: the profile of an entry with the key, if there is one and the nonce
      is signed with it. */
  lemma NKeyAnswer(req: Request, oracles: Oracles, expand: Expand, c: Config, t: Tables)
    requires IsTablesOf(expand, c, t)
    ensures var r := TryAuthenticate(NKey, req, oracles, t);
            && (r.Some? <==>
                  && req.nkey != "" && (exists n :: IsKeyedBy(expand, c.nkey, req.nkey, n))
                  && req.signedNonce != "" && oracles.verifies(req.nkey, req.nonce, req.signedNonce))
            && (r.Some? ==> exists n ::
                  IsKeyedBy(expand, c.nkey, req.nkey, n)
                  && r.value == Profile(n, expand(c.nkey[n].account), c.nkey[n].permissions))
  {
    hide FindProfile, IsKeyedBy;
    KeyedLookup(expand, c.nkey, t.nkey, req.nkey);
  }

  /** What the anonymous method answers: the configured profile, to requests without any credential. */
  lemma NoAuthAnswer(req: Request, oracles: Oracles, expand: Expand, c: Config, t: Tables)
    requires IsTablesOf(expand, c, t)
    ensures TryAuthenticate(NoAuth, req, oracles, t)
         == if req.token == "" && (req.chains.None? || req.chains.value == []) && req.nkey == "" && c.noauth.Some?
            then Some(Profile("anonymous", expand(c.noauth.value.account), c.noauth.value.permissions))
            else None
  {
  }
}

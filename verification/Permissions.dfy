/** The permissions configuration and its lookup tables: building them on each load, and finding
    a profile by credentials. */
module Permissions {
  import opened Text

  /** Permissions are carried along and not looked into. */
  datatype Profile = Profile(name: string, account: string, permissions: string)

  datatype OAuth2Entry =
    OAuth2Entry(subject: string, azp: string, account: string, permissions: string, requiredScope: string)
  datatype KeyedEntry = KeyedEntry(key: string, account: string, permissions: string)
  datatype NoAuthEntry = NoAuthEntry(account: string, permissions: string)

  /** Entries by name; the key of an mTLS entry is its identity, of an NKey entry its public key. */
  datatype Config = Config(oauth2: map<string, OAuth2Entry>, mtls: map<string, KeyedEntry>,
                           nkey: map<string, KeyedEntry>, noauth: Option<NoAuthEntry>)

  datatype OKey = OKey(subject: string, azp: string)
  datatype OProfile = OProfile(profile: Profile, requiredScope: string)

  type OTable = map<OKey, OProfile>
  type Table = map<string, Profile>

  datatype Tables = Tables(oauth2: OTable, mtls: Table, nkey: Table, noauth: Option<Profile>)

  /** `os.ExpandEnv`, a fixed function. */
  type Expand = string -> string

  function KeyOf(expand: Expand, e: OAuth2Entry): OKey {
    OKey(expand(e.subject), expand(e.azp))
  }

  function OProfileOf(expand: Expand, name: string, e: OAuth2Entry): OProfile {
    var scope := expand(e.requiredScope);
    OProfile(Profile(name, expand(e.account), e.permissions), if scope == "" then "mqtt" else scope)
  }

  function ProfileOf(expand: Expand, name: string, e: KeyedEntry): Profile {
    Profile(name, expand(e.account), e.permissions)
  }

  function NoAuthOf(expand: Expand, e: Option<NoAuthEntry>): Option<Profile> {
    if e.None? then None else Some(Profile("anonymous", expand(e.value.account), e.value.permissions))
  }

  /** Every OAuth2 entry has a subject or an azp. */
  predicate IsAcceptable(expand: Expand, c: Config) {
    forall name :: name in c.oauth2 ==> KeyOf(expand, c.oauth2[name]) != OKey("", "")
  }

  /** The table has the keys of the entries, each with the profile of an entry that has this key. */
  predicate IsOAuth2Index(expand: Expand, entries: map<string, OAuth2Entry>, t: OTable) {
    && (forall name :: name in entries ==> KeyOf(expand, entries[name]) in t)
    && (forall k :: k in t ==> exists name :: name in entries && KeyOf(expand, entries[name]) == k
                                              && t[k] == OProfileOf(expand, name, entries[name]))
  }

  predicate IsIndex(expand: Expand, entries: map<string, KeyedEntry>, t: Table) {
    && (forall name :: name in entries ==> expand(entries[name].key) in t)
    && (forall k :: k in t ==> exists name :: name in entries && expand(entries[name].key) == k
                                              && t[k] == ProfileOf(expand, name, entries[name]))
  }

  predicate IsTablesOf(expand: Expand, c: Config, t: Tables) {
    && IsOAuth2Index(expand, c.oauth2, t.oauth2) && IsIndex(expand, c.mtls, t.mtls)
    && IsIndex(expand, c.nkey, t.nkey) && t.noauth == NoAuthOf(expand, c.noauth)
  }

  // ---------------------------------------------------------------- lookups

  function FindOAuth2(t: OTable, subject: string, azp: string): Option<OProfile> {
    if OKey(subject, azp) in t then Some(t[OKey(subject, azp)])
    else if OKey(subject, "") in t then Some(t[OKey(subject, "")])
    else if OKey("", azp) in t then Some(t[OKey("", azp)])
    else None
  }

  function FindProfile(t: Table, key: string): Option<Profile> {
    if key in t then Some(t[key]) else None
  }

  // ---------------------------------------------------------------- the manager

  class PermissionsManager {
    // atomic pointers; None is nil
    var oauth2Lookup: Option<OTable>
    var mtlsLookup: Option<Table>
    var nkeyLookup: Option<Table>
    var noauthProfile: Option<Profile>

    /** Nil pointers, before the initial load. */
    constructor ()
      ensures oauth2Lookup.None? && mtlsLookup.None? && nkeyLookup.None? && noauthProfile.None?
    {
      oauth2Lookup, mtlsLookup, nkeyLookup, noauthProfile := None, None, None, None;
    }

    predicate Ready()
      reads this
    {
      oauth2Lookup.Some? && mtlsLookup.Some? && nkeyLookup.Some?
    }

    function Current(): Tables
      requires Ready()
      reads this
    {
      Tables(oauth2Lookup.value, mtlsLookup.value, nkeyLookup.value, noauthProfile)
    }

    /** config is None when the file cannot be read or parsed. Go iterates the entries in any order. */
    method Load(config: Option<Config>, expand: Expand) returns (ok: bool)
      modifies this
      ensures ok <==> config.Some? && IsAcceptable(expand, config.value)
      ensures ok ==> Ready() && IsTablesOf(expand, config.value, Current())
      ensures !ok ==> unchanged(this)
    {
      hide KeyOf, IsAcceptable, IsOAuth2Index, IsIndex;
      if config.None? {
        return false;
      }
      var c := config.value;
      var oauth2 := BuildOAuth2Index(c, expand);
      if oauth2.None? {
        return false;
      }
      var mtls := BuildIndex(c.mtls, expand);
      var nkey := BuildIndex(c.nkey, expand);
      if c.noauth.Some? {
        noauthProfile := Some(Profile("anonymous", expand(c.noauth.value.account), c.noauth.value.permissions));
      } else {
        noauthProfile := None;
      }
      oauth2Lookup := oauth2;
      mtlsLookup := Some(mtls);
      nkeyLookup := Some(nkey);
      ok := true;
    }

    static method BuildOAuth2Index(c: Config, expand: Expand) returns (r: Option<OTable>)
      ensures r.Some? <==> IsAcceptable(expand, c)
      ensures r.Some? ==> IsOAuth2Index(expand, c.oauth2, r.value)
    {
      hide KeyOf, OProfileOf;
      var t: OTable := map[];
      var names := c.oauth2.Keys;
      while names != {}
        invariant names <= c.oauth2.Keys
        invariant forall n :: n in c.oauth2 && n !in names ==> KeyOf(expand, c.oauth2[n]) != OKey("", "")
        invariant IsOAuth2Index(expand, map n | n in c.oauth2 && n !in names :: c.oauth2[n], t)
      {
        var name :| name in names;
        var entry := c.oauth2[name];
        if KeyOf(expand, entry) == OKey("", "") {
          return None;
        }
        AddOAuth2(expand, map n | n in c.oauth2 && n !in names :: c.oauth2[n], t, name, entry);
        t := t[KeyOf(expand, entry) := OProfileOf(expand, name, entry)];
        assert (map n | n in c.oauth2 && n !in names - {name} :: c.oauth2[n])
            == (map n | n in c.oauth2 && n !in names :: c.oauth2[n])[name := entry];
        names := names - {name};
      }
      assert (map n | n in c.oauth2 && n !in names :: c.oauth2[n]) == c.oauth2;
      r := Some(t);
    }

    static method BuildIndex(entries: map<string, KeyedEntry>, expand: Expand) returns (t: Table)
      ensures IsIndex(expand, entries, t)
    {
      hide ProfileOf;
      t := map[];
      var names := entries.Keys;
      while names != {}
        invariant names <= entries.Keys
        invariant IsIndex(expand, map n | n in entries && n !in names :: entries[n], t)
      {
        var name :| name in names;
        var entry := entries[name];
        AddKeyed(expand, map n | n in entries && n !in names :: entries[n], t, name, entry);
        t := t[expand(entry.key) := ProfileOf(expand, name, entry)];
        assert (map n | n in entries && n !in names - {name} :: entries[n])
            == (map n | n in entries && n !in names :: entries[n])[name := entry];
        names := names - {name};
      }
      assert (map n | n in entries && n !in names :: entries[n]) == entries;
    }

    method GetOAuth2Profile(subject: string, azp: string) returns (r: Option<OProfile>)
      requires Ready()
      ensures r == FindOAuth2(Current().oauth2, subject, azp)
    {
      var lookup := oauth2Lookup.value;
      if OKey(subject, azp) in lookup {
        return Some(lookup[OKey(subject, azp)]);
      }
      if OKey(subject, "") in lookup {
        return Some(lookup[OKey(subject, "")]);
      }
      if OKey("", azp) in lookup {
        return Some(lookup[OKey("", azp)]);
      }
      r := None;
    }

    method GetMTLSProfile(identity: string) returns (r: Option<Profile>)
      requires Ready()
      ensures r == FindProfile(Current().mtls, identity)
    {
      r := FindProfile(mtlsLookup.value, identity);
    }

    method GetNKeyProfile(publicKey: string) returns (r: Option<Profile>)
      requires Ready()
      ensures r == FindProfile(Current().nkey, publicKey)
    {
      r := FindProfile(nkeyLookup.value, publicKey);
    }

    method GetNoAuthProfile() returns (r: Option<Profile>)
      requires Ready()
      ensures r == Current().noauth
    {
      r := noauthProfile;
    }
  }

  lemma AddOAuth2(expand: Expand, entries: map<string, OAuth2Entry>, t: OTable, name: string, e: OAuth2Entry)
    requires IsOAuth2Index(expand, entries, t) && name !in entries
    ensures IsOAuth2Index(expand, entries[name := e], t[KeyOf(expand, e) := OProfileOf(expand, name, e)])
  {
    hide KeyOf, OProfileOf;
    var all, t' := entries[name := e], t[KeyOf(expand, e) := OProfileOf(expand, name, e)];
    forall k | k in t'
      ensures exists n :: n in all && KeyOf(expand, all[n]) == k && t'[k] == OProfileOf(expand, n, all[n])
    {
      if k == KeyOf(expand, e) {
        assert all[name] == e;
      } else {
        var n :| n in entries && KeyOf(expand, entries[n]) == k && t[k] == OProfileOf(expand, n, entries[n]);
        assert all[n] == entries[n];
      }
    }
  }

  lemma AddKeyed(expand: Expand, entries: map<string, KeyedEntry>, t: Table, name: string, e: KeyedEntry)
    requires IsIndex(expand, entries, t) && name !in entries
    ensures IsIndex(expand, entries[name := e], t[expand(e.key) := ProfileOf(expand, name, e)])
  {
    hide ProfileOf;
    var all, t' := entries[name := e], t[expand(e.key) := ProfileOf(expand, name, e)];
    forall k | k in t'
      ensures exists n :: n in all && expand(all[n].key) == k && t'[k] == ProfileOf(expand, n, all[n])
    {
      if k == expand(e.key) {
        assert all[name] == e;
      } else {
        var n :| n in entries && expand(entries[n].key) == k && t[k] == ProfileOf(expand, n, entries[n]);
        assert all[n] == entries[n];
      }
    }
  }

  // ---------------------------------------------------------------- agreement with the entries

  predicate DistinctKeys(expand: Expand, entries: map<string, OAuth2Entry>) {
    forall m, n :: m in entries && n in entries && m != n ==> KeyOf(expand, entries[m]) != KeyOf(expand, entries[n])
  }

  /** The entry named n is the one a search through the entries should return: no entry of an
      earlier kind (exact, then subject only, then azp only) and itself of the given kind. */
  predicate IsBest(expand: Expand, entries: map<string, OAuth2Entry>, subject: string, azp: string, n: string)
    requires n in entries
  {
    var k := KeyOf(expand, entries[n]);
    || k == OKey(subject, azp)
    || (k == OKey(subject, "") && NoneHas(expand, entries, OKey(subject, azp)))
    || (k == OKey("", azp) && NoneHas(expand, entries, OKey(subject, azp))
        && NoneHas(expand, entries, OKey(subject, "")))
  }

  predicate NoneHas(expand: Expand, entries: map<string, OAuth2Entry>, k: OKey) {
    forall n :: n in entries ==> KeyOf(expand, entries[n]) != k
  }

  lemma IndexHas(expand: Expand, entries: map<string, OAuth2Entry>, t: OTable, k: OKey)
    requires IsOAuth2Index(expand, entries, t)
    ensures k in t <==> !NoneHas(expand, entries, k)
  {
    hide KeyOf, OProfileOf;
  }

  /** The lookup is the search through the entries by priority. */
  lemma OAuth2Agrees(expand: Expand, entries: map<string, OAuth2Entry>, t: OTable, subject: string, azp: string)
    requires IsOAuth2Index(expand, entries, t) && DistinctKeys(expand, entries)
    ensures FindOAuth2(t, subject, azp).None? <==>
              forall n :: n in entries ==> !IsBest(expand, entries, subject, azp, n)
    ensures forall n :: n in entries && IsBest(expand, entries, subject, azp, n) ==>
              FindOAuth2(t, subject, azp) == Some(OProfileOf(expand, n, entries[n]))
  {
    hide KeyOf, OProfileOf, IsOAuth2Index, NoneHas, DistinctKeys;
    IndexHas(expand, entries, t, OKey(subject, azp));
    IndexHas(expand, entries, t, OKey(subject, ""));
    IndexHas(expand, entries, t, OKey("", azp));
    forall n | n in entries && IsBest(expand, entries, subject, azp, n)
      ensures FindOAuth2(t, subject, azp) == Some(OProfileOf(expand, n, entries[n]))
    {
      OwnProfile(expand, entries, t, n);
    }
    if FindOAuth2(t, subject, azp).Some? {
      var k := if OKey(subject, azp) in t then OKey(subject, azp)
               else if OKey(subject, "") in t then OKey(subject, "") else OKey("", azp);
      var n := SomeEntry(expand, entries, t, k);
      assert IsBest(expand, entries, subject, azp, n);
    }
  }

  lemma SomeEntry(expand: Expand, entries: map<string, OAuth2Entry>, t: OTable, k: OKey) returns (n: string)
    requires IsOAuth2Index(expand, entries, t) && k in t
    ensures n in entries && KeyOf(expand, entries[n]) == k && t[k] == OProfileOf(expand, n, entries[n])
  {
    hide KeyOf, OProfileOf;
    n :| n in entries && KeyOf(expand, entries[n]) == k && t[k] == OProfileOf(expand, n, entries[n]);
  }

  /** With distinct keys an entry's key leads to its own profile. */
  lemma OwnProfile(expand: Expand, entries: map<string, OAuth2Entry>, t: OTable, n: string)
    requires IsOAuth2Index(expand, entries, t) && DistinctKeys(expand, entries) && n in entries
    ensures var k := KeyOf(expand, entries[n]); k in t && t[k] == OProfileOf(expand, n, entries[n])
  {
    hide KeyOf, OProfileOf;
    var m := SomeEntry(expand, entries, t, KeyOf(expand, entries[n]));
    assert m == n;
  }

  /** The key has an identifier, and its non-empty identifiers are the token's. */
  predicate Identifies(k: OKey, subject: string, azp: string) {
    && (k.subject != "" || k.azp != "")
    && (k.subject != "" ==> k.subject == subject) && (k.azp != "" ==> k.azp == azp)
  }

  /** A returned entry's non-empty identifiers all equal the token's; and in tables of an
      acceptable configuration an empty subject and azp match nothing. */
  lemma OAuth2Matches(expand: Expand, c: Config, t: OTable, subject: string, azp: string)
    requires IsOAuth2Index(expand, c.oauth2, t) && IsAcceptable(expand, c)
    ensures var r := FindOAuth2(t, subject, azp);
            r.Some? ==> exists n :: n in c.oauth2 && r.value == OProfileOf(expand, n, c.oauth2[n])
                                    && Identifies(KeyOf(expand, c.oauth2[n]), subject, azp)
    ensures FindOAuth2(t, "", "").None?
  {
    hide KeyOf, OProfileOf;
    if FindOAuth2(t, subject, azp).Some? {
      var k := if OKey(subject, azp) in t then OKey(subject, azp)
               else if OKey(subject, "") in t then OKey(subject, "") else OKey("", azp);
      var n := SomeEntry(expand, c.oauth2, t, k);
      assert KeyOf(expand, c.oauth2[n]) == k;
    }
  }
}

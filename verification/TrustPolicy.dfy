/** The reviewer trust policy: its keys, their scopes and validity, and its validation. */
module TrustPolicy {
  import opened Prelude
  import opened Calendar
  import opened Text
  import opened Evidence

  datatype Role = LabObserver | IndependentReviewer | UnknownRole(text: string)

  datatype Key = Key(keyId: string, algorithmKnown: bool, publicKey: string, principal: string, organization: string,
                     role: Role, routes: seq<string>, platforms: seq<string>, architectures: seq<string>,
                     profiles: seq<string>, notBefore: Stamp, notAfter: Stamp, revoked: bool)

  datatype PolicyStatus = Unprovisioned | Provisioned | UnknownStatus(text: string)

  datatype Policy = Policy(schemaKnown: bool, policyId: string, status: PolicyStatus, validFrom: Stamp, expires: Stamp,
                           requiredRoles: seq<Role>, minSignatures: int, distinctPrincipals: bool,
                           distinctOrganizations: bool, keys: seq<Key>)

  /** Bounded lowercase identifiers, and the key ID derived from a public key (`None` for an unusable key). */
  datatype Identifiers = Identifiers(slug: string -> bool, keyIdOf: string -> Option<string>)

  const WINDOWS_ROUTE := "physical-windows-remote"
  const MACOS_ROUTE := "physical-macos-remote"
  const PROFILE := "remote-play-v1"
  const ROUTES: set<string> := {WINDOWS_ROUTE, MACOS_ROUTE}
  const PLATFORMS: set<string> := {"linux", "freebsd", "openbsd", "netbsd", "dragonflybsd"}
  const ARCHITECTURES: set<string> := {"amd64", "arm64"}
  const MIN_SIGNATURES: nat := 2
  const MAX_KEYS: nat := 8

  /** The exact whole-second UTC form that payloads, envelopes and policies must use. */
  predicate Canonical(s: Stamp) {
    s.Stamp? && s.canonical && s.instant % SECOND == 0
  }

  predicate ValidScope(values: seq<string>, allowed: set<string>) {
    values != [] && StrictlySorted(values) && forall v | v in values :: v in allowed
  }

  /** Sorted first, then member by member: allowed, and different from the one before it. */
  method ValidateSortedScope(values: seq<string>, allowed: set<string>) returns (ok: bool)
    requires "" !in allowed
    ensures ok <==> ValidScope(values, allowed)
  {
    if |values| == 0 {
      return false;
    }
    for i := 1 to |values|
      invariant forall k :: 0 < k < i ==> !Less(values[k], values[k - 1])
    {
      if Less(values[i], values[i - 1]) {
        if StrictlySorted(values) {
          LessTransitive(values[i], values[i - 1], values[i]);
          LessIrreflexive(values[i]);
        }
        return false;
      }
    }
    var previous := "";
    for i := 0 to |values|
      invariant forall k :: 0 <= k < i ==> values[k] in allowed
      invariant forall k :: 0 < k < i ==> Less(values[k - 1], values[k])
      invariant previous == if i == 0 then "" else values[i - 1]
    {
      if values[i] !in allowed {
        return false;
      }
      if values[i] == previous {
        LessIrreflexive(previous);
        return false;
      }
      if i > 0 {
        LessTotal(values[i - 1], values[i]);
      }
      previous := values[i];
    }
    ok := true;
  }

  predicate ValidKey(k: Key, start: Instant, end: Instant, ids: Identifiers) {
    && k.algorithmKnown && ids.keyIdOf(k.publicKey) == Some(k.keyId)
    && ids.slug(k.principal) && ids.slug(k.organization) && !k.role.UnknownRole?
    && ValidScope(k.routes, ROUTES) && ValidScope(k.platforms, PLATFORMS) && ValidScope(k.architectures, ARCHITECTURES)
    && k.profiles == [PROFILE]
    && Canonical(k.notBefore) && Canonical(k.notAfter)
    && start <= k.notBefore.instant < k.notAfter.instant <= end
  }

  function KeyIds(keys: seq<Key>): seq<string> {
    seq(|keys|, i requires 0 <= i < |keys| => keys[i].keyId)
  }

  function Principals(keys: seq<Key>): seq<string> {
    seq(|keys|, i requires 0 <= i < |keys| => keys[i].principal)
  }

  function Organizations(keys: seq<Key>): seq<string> {
    seq(|keys|, i requires 0 <= i < |keys| => keys[i].organization)
  }

  predicate HasRole(keys: seq<Key>, role: Role) {
    exists k :: k in keys && k.role == role
  }

  predicate OnePrincipalPerRole(keys: seq<Key>) {
    forall i, j :: 0 <= i < j < |keys| ==> keys[i].principal != keys[j].principal || keys[i].role != keys[j].role
  }

  predicate ValidBase(p: Policy, ids: Identifiers) {
    && p.schemaKnown && ids.slug(p.policyId) && p.requiredRoles == [LabObserver, IndependentReviewer]
    && p.minSignatures == MIN_SIGNATURES && p.distinctPrincipals && p.distinctOrganizations
  }

  predicate ValidProvision(p: Policy, ids: Identifiers) {
    && MIN_SIGNATURES <= |p.keys| <= MAX_KEYS
    && Canonical(p.validFrom) && Canonical(p.expires) && p.validFrom.instant < p.expires.instant
    && StrictlySorted(KeyIds(p.keys))
    && (forall k | k in p.keys :: ValidKey(k, p.validFrom.instant, p.expires.instant, ids))
    && OnePrincipalPerRole(p.keys)
    && HasRole(p.keys, LabObserver) && HasRole(p.keys, IndependentReviewer)
  }

  predicate ValidPolicy(p: Policy, ids: Identifiers) {
    && ValidBase(p, ids)
    && match p.status
       case Unprovisioned => p.validFrom.Blank? && p.expires.Blank? && p.keys == []
       case Provisioned => ValidProvision(p, ids)
       case UnknownStatus(_) => false
  }

  method ValidateKey(k: Key, start: Instant, end: Instant, ids: Identifiers) returns (ok: bool)
    ensures ok <==> ValidKey(k, start, end, ids)
  {
    if !k.algorithmKnown || ids.keyIdOf(k.publicKey) != Some(k.keyId) || !ids.slug(k.principal)
       || !ids.slug(k.organization) || k.role.UnknownRole?
    {
      return false;
    }
    hide ValidScope;
    var routes := ValidateSortedScope(k.routes, ROUTES);
    var platforms := ValidateSortedScope(k.platforms, PLATFORMS);
    var architectures := ValidateSortedScope(k.architectures, ARCHITECTURES);
    if !routes || !platforms || !architectures || k.profiles != [PROFILE] {
      return false;
    }
    if !Canonical(k.notBefore) || !Canonical(k.notAfter) || k.notAfter.instant <= k.notBefore.instant {
      return false;
    }
    ok := start <= k.notBefore.instant && k.notAfter.instant <= end;
  }

  /** The loop over the keys of a provisioned policy: order, validity, repeated principals, and role counts. */
  method ValidateKeys(keys: seq<Key>, start: Instant, end: Instant, ids: Identifiers) returns (ok: bool)
    ensures ok <==>
            && StrictlySorted(KeyIds(keys)) && (forall k | k in keys :: ValidKey(k, start, end, ids))
            && OnePrincipalPerRole(keys) && HasRole(keys, LabObserver) && HasRole(keys, IndependentReviewer)
  {
    hide ValidKey, Less, HasRole, KeysFine, Pairs;
    NobodyYet(start, end, ids);
    var previous := "";
    var seen: set<(string, Role)> := {};
    var counts := map[LabObserver := 0, IndependentReviewer := 0];
    for i := 0 to |keys|
      invariant previous == if i == 0 then "" else keys[i - 1].keyId
      invariant KeysFine(keys[..i], start, end, ids) && seen == Pairs(keys[..i])
      invariant LabObserver in counts && IndependentReviewer in counts
      invariant counts[LabObserver] >= 0 && (counts[LabObserver] > 0 <==> HasRole(keys[..i], LabObserver))
      invariant counts[IndependentReviewer] >= 0 && (counts[IndependentReviewer] > 0 <==> HasRole(keys[..i], IndependentReviewer))
    {
      var key := keys[i];
      assert keys[..i + 1] == keys[..i] + [key];
      OneKeyMore(keys[..i], key, start, end, ids);
      if i > 0 && !Less(previous, key.keyId) {
        FinePrefix(keys, i + 1, start, end, ids);
        return false;
      }
      previous := key.keyId;
      var valid := ValidateKey(key, start, end, ids);
      if !valid || (key.principal, key.role) in seen {
        FinePrefix(keys, i + 1, start, end, ids);
        return false;
      }
      seen := seen + {(key.principal, key.role)};
      counts := counts[key.role := (if key.role in counts then counts[key.role] else 0) + 1];
    }
    assert keys[..|keys|] == keys;
    FineMeans(keys, start, end, ids);
    ok := counts[LabObserver] != 0 && counts[IndependentReviewer] != 0;
  }

  /** Keys in strict order, each valid, and nobody twice in one role. */
  ghost predicate KeysFine(keys: seq<Key>, start: Instant, end: Instant, ids: Identifiers) {
    && StrictlySorted(KeyIds(keys)) && (forall k | k in keys :: ValidKey(k, start, end, ids)) && OnePrincipalPerRole(keys)
  }

  ghost function Pairs(keys: seq<Key>): set<(string, Role)> {
    set k | k in keys :: (k.principal, k.role)
  }

  lemma FineMeans(keys: seq<Key>, start: Instant, end: Instant, ids: Identifiers)
    ensures KeysFine(keys, start, end, ids) <==>
            && StrictlySorted(KeyIds(keys)) && (forall k | k in keys :: ValidKey(k, start, end, ids))
            && OnePrincipalPerRole(keys)
  {
  }

  lemma NobodyYet(start: Instant, end: Instant, ids: Identifiers)
    ensures KeysFine([], start, end, ids) && Pairs([]) == {}
    ensures !HasRole([], LabObserver) && !HasRole([], IndependentReviewer)
  {
  }

  lemma FinePrefix(keys: seq<Key>, n: nat, start: Instant, end: Instant, ids: Identifiers)
    requires n <= |keys| && !KeysFine(keys[..n], start, end, ids)
    ensures !(StrictlySorted(KeyIds(keys)) && (forall k | k in keys :: ValidKey(k, start, end, ids))
              && OnePrincipalPerRole(keys))
  {
    hide ValidKey, Less;
    var shorter := keys[..n];
    assert KeyIds(shorter) == KeyIds(keys)[..n];
  }

  /** What one more key asks for. */
  lemma OneKeyMore(keys: seq<Key>, key: Key, start: Instant, end: Instant, ids: Identifiers)
    requires KeysFine(keys, start, end, ids)
    ensures KeysFine(keys + [key], start, end, ids) <==>
            && (keys == [] || Less(keys[|keys| - 1].keyId, key.keyId))
            && ValidKey(key, start, end, ids) && (key.principal, key.role) !in Pairs(keys)
    ensures Pairs(keys + [key]) == Pairs(keys) + {(key.principal, key.role)}
    ensures HasRole(keys + [key], LabObserver) <==> HasRole(keys, LabObserver) || key.role == LabObserver
    ensures HasRole(keys + [key], IndependentReviewer) <==> HasRole(keys, IndependentReviewer) || key.role == IndependentReviewer
  {
    OneMoreInOrder(keys, key);
    OneMoreInRole(keys, key);
    hide ValidKey, Less, StrictlySorted, OnePrincipalPerRole;
  }

  lemma OneMoreInOrder(keys: seq<Key>, key: Key)
    requires StrictlySorted(KeyIds(keys))
    ensures StrictlySorted(KeyIds(keys + [key])) <==> keys == [] || Less(keys[|keys| - 1].keyId, key.keyId)
  {
    hide Less;
    var ids, more := KeyIds(keys), KeyIds(keys + [key]);
    assert more == ids + [key.keyId];
    if keys != [] {
      assert more[|keys| - 1] == keys[|keys| - 1].keyId && more[|keys|] == key.keyId;
    }
  }

  lemma OneMoreInRole(keys: seq<Key>, key: Key)
    requires OnePrincipalPerRole(keys)
    ensures OnePrincipalPerRole(keys + [key]) <==> (key.principal, key.role) !in Pairs(keys)
  {
    var more := keys + [key];
    if k :| k in keys && (k.principal, k.role) == (key.principal, key.role) {
      var i :| 0 <= i < |keys| && keys[i] == k;
      assert more[i] == k && more[|keys|] == key;
    } else {
      assert forall i | 0 <= i < |keys| :: more[i] == keys[i] && keys[i] in keys;
    }
  }

  method ValidateTrustPolicy(p: Policy, ids: Identifiers) returns (ok: bool)
    ensures ok <==> ValidPolicy(p, ids)
  {
    if !ValidBase(p, ids) {
      return false;
    }
    match p.status
    case Unprovisioned =>
      return p.validFrom.Blank? && p.expires.Blank? && |p.keys| == 0;
    case Provisioned =>
      if |p.keys| < MIN_SIGNATURES || |p.keys| > MAX_KEYS || !Canonical(p.validFrom) || !Canonical(p.expires)
         || p.expires.instant <= p.validFrom.instant
      {
        return false;
      }
      ok := ValidateKeys(p.keys, p.validFrom.instant, p.expires.instant, ids);
    case UnknownStatus(_) =>
      return false;
  }

  function Lookup(keys: seq<Key>, keyId: string): (r: Option<Key>)
    ensures r.Some? ==> r.value in keys && r.value.keyId == keyId
    ensures r.None? ==> forall k | k in keys :: k.keyId != keyId
  {
    if keys == [] then None
    else if keys[|keys| - 1].keyId == keyId then Some(keys[|keys| - 1])
    else Lookup(keys[..|keys| - 1], keyId)
  }

  /** In a valid policy a key ID names one key, whichever way the table is built. */
  lemma KeyIsUnique(p: Policy, ids: Identifiers, a: Key, b: Key)
    requires ValidProvision(p, ids) && a in p.keys && b in p.keys && a.keyId == b.keyId
    ensures a == b
  {
    var i :| 0 <= i < |p.keys| && p.keys[i] == a;
    var j :| 0 <= j < |p.keys| && p.keys[j] == b;
    SortedIsDistinct(KeyIds(p.keys));
    assert KeyIds(p.keys)[i] == KeyIds(p.keys)[j];
  }

  /** A lab observer and an independent reviewer, under different keys, principals and organizations. */
  predicate IndependentPair(lab: Key, independent: Key) {
    && lab.role == LabObserver && independent.role == IndependentReviewer
    && lab.keyId != independent.keyId && lab.principal != independent.principal
    && lab.organization != independent.organization
  }

  predicate Quorum(signers: seq<Key>) {
    exists lab, independent :: lab in signers && independent in signers && IndependentPair(lab, independent)
  }

  method HasIndependentQuorum(signers: seq<Key>) returns (found: bool)
    ensures found <==> Quorum(signers)
  {
    for i := 0 to |signers|
      invariant forall k, l :: 0 <= k < i && 0 <= l < |signers| ==> !IndependentPair(signers[k], signers[l])
    {
      var lab := signers[i];
      if lab.role != LabObserver {
        continue;
      }
      for j := 0 to |signers|
        invariant forall l :: 0 <= l < j ==> !IndependentPair(lab, signers[l])
      {
        var independent := signers[j];
        if independent.role != IndependentReviewer {
          continue;
        }
        if lab.keyId != independent.keyId && lab.principal != independent.principal
           && lab.organization != independent.organization
        {
          assert lab in signers && independent in signers && IndependentPair(lab, independent);
          return true;
        }
      }
    }
    found := false;
  }
}

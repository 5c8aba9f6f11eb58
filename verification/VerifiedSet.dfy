/**
 * Authenticating an evidence set: a signed payload, three exact records, their artifact tokens and a trust policy become
 * a verified set.
 */
module VerifiedSet {
  import opened Prelude
  import opened Calendar
  import opened Text
  import opened Evidence
  import opened EvidenceSet
  import opened TrustPolicy

  type Bytes = seq<char>

  const MAX_SIGNATURES: nat := 8
  const MAX_PAYLOAD: nat := 0x10000
  datatype Signature = Signature(algorithmKnown: bool, keyId: string, signedAt: Stamp, wellFormed: bool, text: string)

  /** A decoded envelope; `payload` is absent when its text is not canonical base64url. */
  datatype Envelope = Envelope(headerValid: bool, payload: Option<Bytes>, signatures: seq<Signature>)

  datatype Payload = Payload(schemaKnown: bool, setId: string, runId: string, route: Route, profile: string,
                             policyId: string, created: Stamp, expires: Stamp, manifestAsOf: Option<int>,
                             manifestDigest: string, hostSubject: Subject, clientSubject: Subject,
                             hostDigest: string, clientDigest: string, sessionDigest: string)

  datatype Cell = Cell(route: Option<Route>, platform: string, architecture: string)

  /** Decoding, hashing and signature checking, as functions of exact bytes. */
  datatype Codec = Codec(
    decodeEnvelope: Bytes -> Option<Envelope>,
    decodePayload: Bytes -> Option<Payload>,
    encodePayload: Payload -> Bytes,
    decodeRecord: Bytes -> Option<Record>,
    sha256: Bytes -> string,
    verifies: (Key, Signature, Bytes) -> bool,
    setId: string -> bool,
    runId: string -> bool,
    keyId: string -> bool,
    trim: string -> string)

  datatype World = World(setting: Setting, ids: Identifiers, codec: Codec)

  datatype Submission = Submission(envelope: Bytes, host: Bytes, client: Bytes, session: Bytes, expected: Cell,
                                   tokens: Tokens, policy: Option<Policy>)

  // ---------------------------------------------------------------- parsing

  predicate SupportedHost(route: Route, host: Subject) {
    match route
    case PhysicalWindows => host == Subject("windows", "amd64")
    case PhysicalMacOs => host == Subject("macos", "amd64") || host == Subject("macos", "arm64")
    case UnknownRoute(_) => false
  }

  predicate ValidPayload(p: Payload, w: World) {
    && p.schemaKnown && w.codec.setId(p.setId) && w.codec.runId(p.runId) && !p.route.UnknownRoute?
    && p.profile == PROFILE && w.ids.slug(p.policyId)
    && Canonical(p.created) && Canonical(p.expires)
    && p.created.instant < p.expires.instant <= p.created.instant + MAX_VALIDITY
    && p.manifestAsOf.Some? && p.manifestAsOf.value <= DayOf(p.created.instant) && IsSha256(p.manifestDigest)
    && SupportedHost(p.route, p.hostSubject)
    && p.clientSubject.platform in PLATFORMS
    && w.setting.supported(p.clientSubject.platform, p.clientSubject.architecture)
    && IsSha256(p.hostDigest) && IsSha256(p.clientDigest) && IsSha256(p.sessionDigest)
  }

  /**
   * The few facts about the primitives that matter: the shapes of digests and identifiers, and that encoding a payload
   * neither loses a valid one nor makes a valid one out of another.
   */
  ghost predicate Lawful(w: World) {
    && ValidSetting(w.setting)
    && (forall b :: IsSha256(w.codec.sha256(b)))
    && (forall s :: w.ids.slug(s) || w.codec.setId(s) || w.codec.runId(s) ==> w.codec.trim(s) == s && s != "")
    && (forall p :: ValidPayload(p, w) ==> Reencoded(p, w) == Some(p))
    && (forall p :: Reencoded(p, w).Some? && ValidPayload(Reencoded(p, w).value, w) ==> Reencoded(p, w).value == p)
  }

  function Reencoded(p: Payload, w: World): Option<Payload> {
    w.codec.decodePayload(w.codec.encodePayload(p))
  }

  function ParsePayload(data: Bytes, w: World): Option<Payload> {
    var p := w.codec.decodePayload(data);
    if 0 < |data| <= MAX_PAYLOAD && p.Some? && ValidPayload(p.value, w) then p else None
  }

  function SignatureIds(signatures: seq<Signature>): seq<string> {
    seq(|signatures|, i requires 0 <= i < |signatures| => signatures[i].keyId)
  }

  predicate ValidEnvelope(e: Envelope, w: World) {
    && e.headerValid && e.payload.Some?
    && MIN_SIGNATURES <= |e.signatures| <= MAX_SIGNATURES
    && StrictlySorted(SignatureIds(e.signatures))
    && forall s | s in e.signatures :: s.algorithmKnown && w.codec.keyId(s.keyId) && Canonical(s.signedAt) && s.wellFormed
  }

  method CheckSignatureList(signatures: seq<Signature>, w: World) returns (ok: bool)
    ensures ok <==> StrictlySorted(SignatureIds(signatures)) && forall s | s in signatures ::
              s.algorithmKnown && w.codec.keyId(s.keyId) && Canonical(s.signedAt) && s.wellFormed
  {
    hide Less;
    var previous := "";
    for i := 0 to |signatures|
      invariant previous == if i == 0 then "" else signatures[i - 1].keyId
      invariant forall k :: 0 < k < i ==> Less(signatures[k - 1].keyId, signatures[k].keyId)
      invariant forall k :: 0 <= k < i ==>
                  && signatures[k].algorithmKnown && w.codec.keyId(signatures[k].keyId)
                  && Canonical(signatures[k].signedAt) && signatures[k].wellFormed
    {
      var item := signatures[i];
      assert item in signatures;
      if !item.algorithmKnown || !w.codec.keyId(item.keyId) {
        return false;
      }
      if i > 0 && !Less(previous, item.keyId) {
        assert SignatureIds(signatures)[i] == item.keyId && SignatureIds(signatures)[i - 1] == previous;
        return false;
      }
      previous := item.keyId;
      if !Canonical(item.signedAt) || !item.wellFormed {
        return false;
      }
    }
    ok := true;
  }

  function ParseRecord(data: Bytes, w: World): Option<Record> {
    var r := w.codec.decodeRecord(data);
    if r.Some? && ValidRecord(r.value, w.setting.supported) then r else None
  }

  /** Everything a submission decodes to. */
  datatype Parsed = Parsed(envelope: Envelope, payload: Payload, trio: Trio)

  function Parse(sub: Submission, w: World): Option<Parsed> {
    var e := w.codec.decodeEnvelope(sub.envelope);
    if e.None? || !ValidEnvelope(e.value, w) then None else
      var p := ParsePayload(e.value.payload.value, w);
      var host, client, session := ParseRecord(sub.host, w), ParseRecord(sub.client, w), ParseRecord(sub.session, w);
      if p.None? || host.None? || client.None? || session.None? then None
      else Some(Parsed(e.value, p.value, Trio(host.value, client.value, session.value)))
  }

  /** Decode the envelope, check it and its signature list, then the payload and the records. */
  method ParseSubmission(sub: Submission, w: World) returns (x: Option<Parsed>)
    ensures x == Parse(sub, w)
  {
    hide StrictlySorted, Canonical, ValidPayload, ValidRecord;
    var e := w.codec.decodeEnvelope(sub.envelope);
    if e.None? || !e.value.headerValid {
      return None;
    }
    if |e.value.signatures| < MIN_SIGNATURES || |e.value.signatures| > MAX_SIGNATURES {
      return None;
    }
    var ordered := CheckSignatureList(e.value.signatures, w);
    if !ordered || e.value.payload.None? {
      return None;
    }
    var p := ParsePayload(e.value.payload.value, w);
    var host, client, session := ParseRecord(sub.host, w), ParseRecord(sub.client, w), ParseRecord(sub.session, w);
    if p.None? || host.None? || client.None? || session.None? {
      return None;
    }
    x := Some(Parsed(e.value, p.value, Trio(host.value, client.value, session.value)));
  }

  // ---------------------------------------------------------------- acceptance

  predicate MatchesCell(expected: Cell, p: Payload) {
    && expected.route == Some(p.route) && expected.platform != "" && expected.architecture != ""
    && expected.platform == p.clientSubject.platform && expected.architecture == p.clientSubject.architecture
  }

  predicate BindsRecord(p: Payload, r: Record) {
    && r.runId == p.runId && r.route == p.route && r.profileKnown
    && r.manifestAsOf == p.manifestAsOf && r.manifestDigest == p.manifestDigest
  }

  predicate BindsRecords(p: Payload, t: Trio) {
    && BindsRecord(p, t.host) && BindsRecord(p, t.client) && BindsRecord(p, t.session)
    && t.host.subject == p.hostSubject && t.client.subject == p.clientSubject && t.session.subject == p.clientSubject
    && p.created.Stamp? && p.expires.Stamp? && t.session.created.Stamp? && t.session.expires.Stamp?
    && t.session.created.instant == p.created.instant && t.session.expires.instant == p.expires.instant
  }

  predicate BindsBytes(p: Payload, sub: Submission, w: World) {
    && p.hostDigest == w.codec.sha256(sub.host) && p.clientDigest == w.codec.sha256(sub.client)
    && p.sessionDigest == w.codec.sha256(sub.session)
  }

  function RouteId(route: Route): string {
    if route == PhysicalWindows then WINDOWS_ROUTE else if route == PhysicalMacOs then MACOS_ROUTE else ""
  }

  predicate InScope(k: Key, p: Payload) {
    && RouteId(p.route) in k.routes && p.clientSubject.platform in k.platforms
    && p.clientSubject.architecture in k.architectures && p.profile in k.profiles
  }

  predicate FollowsReview(at: Instant, r: Record) {
    r.attestation.reviewedAt.Stamp? && r.attestation.reviewedAt.instant <= at
  }

  /** One signature, apart from the present moment: a trusted key in scope and time, after every review, and genuine. */
  predicate SignatureGood(s: Signature, policy: Policy, x: Parsed, w: World)
    requires Canonical(x.payload.created) && Canonical(x.payload.expires) && x.envelope.payload.Some?
    requires ValidProvision(policy, w.ids) && Canonical(s.signedAt)
  {
    var key := Lookup(policy.keys, s.keyId);
    var start, end, at := x.payload.created.instant, x.payload.expires.instant, s.signedAt.instant;
    && key.Some? && !key.value.revoked && InScope(key.value, x.payload)
    && key.value.notBefore.instant <= start && end <= key.value.notAfter.instant
    && key.value.notBefore.instant <= at < key.value.notAfter.instant
    && policy.validFrom.instant <= at < policy.expires.instant
    && start <= at < end
    && FollowsReview(at, x.trio.host) && FollowsReview(at, x.trio.client) && FollowsReview(at, x.trio.session)
    && w.codec.verifies(key.value, s, x.envelope.payload.value)
  }

  function Signers(signatures: seq<Signature>, keys: seq<Key>): seq<Key> {
    if signatures == [] then [] else
      var key := Lookup(keys, signatures[|signatures| - 1].keyId);
      Signers(signatures[..|signatures| - 1], keys) + if key.Some? then [key.value] else []
  }

  /** The part of acceptance that does not depend on the present moment. */
  predicate TimelesslyAccepted(sub: Submission, policy: Policy, x: Parsed, w: World)
    requires ValidEnvelope(x.envelope, w) && ValidPayload(x.payload, w)
  {
    && ValidBase(policy, w.ids) && policy.status == Provisioned && ValidProvision(policy, w.ids)
    && x.payload.policyId == policy.policyId
    && MatchesCell(sub.expected, x.payload) && BindsBytes(x.payload, sub, w) && BindsRecords(x.payload, x.trio)
    && policy.validFrom.instant <= x.payload.created.instant && x.payload.expires.instant <= policy.expires.instant
    && (forall s | s in x.envelope.signatures :: SignatureGood(s, policy, x, w))
    && Quorum(Signers(x.envelope.signatures, policy.keys))
  }

  predicate NoneInFuture(signatures: seq<Signature>, now: Instant) {
    forall s | s in signatures && s.signedAt.Stamp? :: s.signedAt.instant <= now
  }

  /** Acceptance of what a submission decodes to. */
  ghost predicate AcceptsParsed(sub: Submission, policy: Policy, x: Parsed, w: World, now: Instant)
    requires ValidSetting(w.setting) && ValidEnvelope(x.envelope, w) && ValidPayload(x.payload, w)
  {
    && TimelesslyAccepted(sub, policy, x, w)
    && x.payload.created.instant <= now < x.payload.expires.instant
    && policy.validFrom.instant <= now < policy.expires.instant
    && SetComplete(x.trio, x.payload.hostDigest, x.payload.clientDigest, Some(sub.tokens), w.setting, now)
    && NoneInFuture(x.envelope.signatures, now)
  }

  /** The exact condition under which a submission is verified at `now`. */
  ghost predicate Accepts(sub: Submission, w: World, now: Instant)
    requires ValidSetting(w.setting)
  {
    && now != ZERO_TIME && sub.policy.Some? && Parse(sub, w).Some?
    && AcceptsParsed(sub, sub.policy.value, Parse(sub, w).value, w, now)
  }

  /** The verified set: what was signed, and by whom. It does not mention the time of verification. */
  datatype Verified = Verified(setId: string, runId: string, route: Route, profile: string, policyId: string,
                               hostSubject: Subject, clientSubject: Subject, manifestAsOf: Option<int>,
                               manifestDigest: string, hostDigest: string, clientDigest: string, sessionDigest: string,
                               payloadDigest: string, created: Instant, expires: Instant,
                               keyIds: seq<string>, principals: seq<string>, organizations: seq<string>)

  function SetOf(x: Parsed, policy: Policy, w: World): Verified
    requires ValidEnvelope(x.envelope, w) && ValidPayload(x.payload, w)
  {
    var p, signers := x.payload, Signers(x.envelope.signatures, policy.keys);
    Verified(p.setId, p.runId, p.route, p.profile, p.policyId, p.hostSubject, p.clientSubject, p.manifestAsOf,
             p.manifestDigest, p.hostDigest, p.clientDigest, p.sessionDigest, w.codec.sha256(x.envelope.payload.value),
             p.created.instant, p.expires.instant, KeyIds(signers), Principals(signers), Organizations(signers))
  }

  method CheckSignature(s: Signature, policy: Policy, x: Parsed, w: World, now: Instant) returns (key: Option<Key>)
    requires Canonical(x.payload.created) && Canonical(x.payload.expires) && x.envelope.payload.Some?
    requires ValidProvision(policy, w.ids) && Canonical(s.signedAt)
    ensures key.Some? <==> SignatureGood(s, policy, x, w) && s.signedAt.instant <= now
    ensures key.Some? ==> key == Lookup(policy.keys, s.keyId)
  {
    var found := Lookup(policy.keys, s.keyId);
    if found.None? || found.value.revoked {
      return None;
    }
    var k := found.value;
    assert ValidKey(k, policy.validFrom.instant, policy.expires.instant, w.ids);
    assert StrictlySorted(k.profiles);
    hide StrictlySorted, Lookup;
    var route := ContainsSorted(k.routes, RouteId(x.payload.route));
    var platform := ContainsSorted(k.platforms, x.payload.clientSubject.platform);
    var architecture := ContainsSorted(k.architectures, x.payload.clientSubject.architecture);
    var profile := ContainsSorted(k.profiles, x.payload.profile);
    if !route || !platform || !architecture || !profile {
      return None;
    }
    var start, end, at := x.payload.created.instant, x.payload.expires.instant, s.signedAt.instant;
    if k.notBefore.instant > start || k.notAfter.instant < end {
      return None;
    }
    if at < k.notBefore.instant || !(at < k.notAfter.instant) {
      return None;
    }
    if at < policy.validFrom.instant || !(at < policy.expires.instant) {
      return None;
    }
    if at < start || !(at < end) {
      return None;
    }
    if at > now {
      return None;
    }
    if !FollowsReview(at, x.trio.host) || !FollowsReview(at, x.trio.client) || !FollowsReview(at, x.trio.session) {
      return None;
    }
    if !w.codec.verifies(k, s, x.envelope.payload.value) {
      return None;
    }
    key := found;
  }

  /** The signer loop: every supplied signature must be good and not in the future. */
  method CheckSignatures(policy: Policy, x: Parsed, w: World, now: Instant) returns (signers: Option<seq<Key>>)
    requires ValidEnvelope(x.envelope, w) && ValidPayload(x.payload, w) && ValidProvision(policy, w.ids)
    ensures signers.Some? <==>
            && (forall s | s in x.envelope.signatures :: SignatureGood(s, policy, x, w))
            && NoneInFuture(x.envelope.signatures, now)
    ensures signers.Some? ==> signers.value == Signers(x.envelope.signatures, policy.keys)
                              && |signers.value| == |x.envelope.signatures|
  {
    hide SignatureGood, ValidProvision, Lookup, StrictlySorted, ValidPayload;
    PayloadIsDated(x, w);
    var signatures := x.envelope.signatures;
    var found: seq<Key> := [];
    for i := 0 to |signatures|
      invariant forall k :: 0 <= k < i ==> SignatureGood(signatures[k], policy, x, w) && signatures[k].signedAt.instant <= now
      invariant found == Signers(signatures[..i], policy.keys) && |found| == i
    {
      var item := signatures[i];
      assert item in signatures && signatures[..i + 1][..i] == signatures[..i];
      var key := CheckSignature(item, policy, x, w, now);
      if key.None? {
        return None;
      }
      found := found + [key.value];
    }
    assert signatures[..|signatures|] == signatures;
    signers := Some(found);
  }

  /** Everything before the signatures: cell, lifetime, exact bytes, bindings, and completeness at `now`. */
  method CheckEvidence(sub: Submission, policy: Policy, x: Parsed, w: World, now: Instant) returns (ok: bool)
    requires ValidSetting(w.setting) && now != ZERO_TIME
    requires Canonical(x.payload.created) && Canonical(x.payload.expires)
    ensures ok <==>
            && x.payload.policyId == policy.policyId && MatchesCell(sub.expected, x.payload)
            && BindsBytes(x.payload, sub, w) && BindsRecords(x.payload, x.trio)
            && x.payload.created.instant <= now < x.payload.expires.instant
            && SetComplete(x.trio, x.payload.hostDigest, x.payload.clientDigest, Some(sub.tokens), w.setting, now)
  {
    hide ValidSetting, BindsRecords, MatchesCell, BindsBytes, Evaluable, SetStateAt;
    if x.payload.policyId != policy.policyId || !MatchesCell(sub.expected, x.payload) {
      return false;
    }
    if x.payload.created.instant > now || now >= x.payload.expires.instant {
      return false;
    }
    if !BindsBytes(x.payload, sub, w) || !BindsRecords(x.payload, x.trio) {
      return false;
    }
    var evaluation := EvaluateSetAt(x.trio, x.payload.hostDigest, x.payload.clientDigest, Some(sub.tokens), w.setting, now);
    ok := evaluation == Some(Complete);
  }

  /** Everything about the signatures: policy window, every signature, the minimum count and the independent pair. */
  method Authenticate(policy: Policy, x: Parsed, w: World, now: Instant) returns (ok: bool)
    requires ValidEnvelope(x.envelope, w) && ValidPayload(x.payload, w)
    requires ValidBase(policy, w.ids) && ValidProvision(policy, w.ids)
    ensures ok <==>
            && policy.validFrom.instant <= now < policy.expires.instant
            && policy.validFrom.instant <= x.payload.created.instant && x.payload.expires.instant <= policy.expires.instant
            && (forall s | s in x.envelope.signatures :: SignatureGood(s, policy, x, w))
            && NoneInFuture(x.envelope.signatures, now)
            && Quorum(Signers(x.envelope.signatures, policy.keys))
  {
    hide SignatureGood, Quorum, Signers, NoneInFuture, StrictlySorted, ValidKey, OnePrincipalPerRole, HasRole;
    var start, end := policy.validFrom.instant, policy.expires.instant;
    if now < start || now >= end || x.payload.created.instant < start || x.payload.expires.instant > end {
      return false;
    }
    var signers := CheckSignatures(policy, x, w, now);
    if signers.None? || |signers.value| < policy.minSignatures {
      return false;
    }
    ok := HasIndependentQuorum(signers.value);
  }

  /** The checks in their order, on decoded values and a policy that validated. */
  method VerifyParsed(sub: Submission, policy: Policy, x: Parsed, w: World, now: Instant) returns (ok: bool)
    requires ValidSetting(w.setting) && now != ZERO_TIME && ValidPolicy(policy, w.ids)
    requires ValidEnvelope(x.envelope, w) && ValidPayload(x.payload, w)
    ensures ok <==> AcceptsParsed(sub, policy, x, w, now)
  {
    hide ValidEnvelope, ValidPayload, ValidProvision, ValidSetting, SignatureGood, Quorum, BindsRecords, MatchesCell;
    hide Signers, SetComplete, BindsBytes, NoneInFuture, ValidBase, Evaluable, SetStateAt;
    PayloadIsDated(x, w);
    var bound := CheckEvidence(sub, policy, x, w, now);
    if !bound || policy.status != Provisioned {
      return false;
    }
    ok := Authenticate(policy, x, w, now);
  }

  /** Authenticate a submission: succeeds exactly when it is acceptable at `now`, with the set it denotes. */
  method VerifySetAt(sub: Submission, w: World, now: Instant) returns (result: Option<Verified>)
    requires ValidSetting(w.setting)
    ensures result.Some? <==> Accepts(sub, w, now)
    ensures result.Some? ==> result.value == SetOf(Parse(sub, w).value, sub.policy.value, w)
  {
    hide ValidPolicy, Parse, ValidEnvelope, ValidPayload, AcceptsParsed, ValidSetting, SetOf;
    if now == ZERO_TIME || sub.policy.None? {
      return None;
    }
    var policy := sub.policy.value;
    var valid := ValidateTrustPolicy(policy, w.ids);
    var parsed := ParseSubmission(sub, w);
    if !valid || parsed.None? {
      if Accepts(sub, w, now) {
        ParsedIsValid(sub, w);
        AcceptedPolicyIsValid(sub, policy, parsed.value, w, now);
      }
      return None;
    }
    ParsedIsValid(sub, w);
    var ok := VerifyParsed(sub, policy, parsed.value, w, now);
    result := if ok then Some(SetOf(parsed.value, policy, w)) else None;
  }

  lemma AcceptedPolicyIsValid(sub: Submission, policy: Policy, x: Parsed, w: World, now: Instant)
    requires ValidSetting(w.setting) && ValidEnvelope(x.envelope, w) && ValidPayload(x.payload, w)
    requires AcceptsParsed(sub, policy, x, w, now)
    ensures ValidPolicy(policy, w.ids)
  {
    hide ValidProvision, ValidBase, ValidEnvelope, ValidPayload, SetComplete;
  }

  lemma PayloadIsDated(x: Parsed, w: World)
    requires ValidEnvelope(x.envelope, w) && ValidPayload(x.payload, w)
    ensures Canonical(x.payload.created) && Canonical(x.payload.expires) && x.envelope.payload.Some?
  {
    hide StrictlySorted, SupportedHost, IsSha256;
  }

  lemma ParsedIsValid(sub: Submission, w: World)
    requires Parse(sub, w).Some?
    ensures ValidEnvelope(Parse(sub, w).value.envelope, w) && ValidPayload(Parse(sub, w).value.payload, w)
    ensures ValidTrio(Parse(sub, w).value.trio, w.setting)
    ensures Canonical(Parse(sub, w).value.payload.created) && Canonical(Parse(sub, w).value.payload.expires)
    ensures |Parse(sub, w).value.envelope.signatures| >= MIN_SIGNATURES
  {
  }

  // ---------------------------------------------------------------- time

  /**
   * The instants of success form one interval: accepted at two times means accepted, with the same set, at every time
   * between them.
   */
  lemma AcceptanceIsConvex(sub: Submission, w: World, a: Instant, b: Instant, c: Instant)
    requires ValidSetting(w.setting) && a <= b <= c
    requires Accepts(sub, w, a) && Accepts(sub, w, c)
    ensures Accepts(sub, w, b)
  {
    hide Parse, TimelesslyAccepted, SetComplete, ValidEnvelope, ValidPayload;
    var x := Parse(sub, w).value;
    ParsedIsValid(sub, w);
    CompleteSetIsConvex(x.trio, x.payload.hostDigest, x.payload.clientDigest, Some(sub.tokens), w.setting, a, b, c);
    NotZeroWhenComplete(x.trio, x.payload.hostDigest, x.payload.clientDigest, Some(sub.tokens), w.setting, b);
  }

  lemma NotZeroWhenComplete(t: Trio, hd: string, cd: string, tokens: Option<Tokens>, s: Setting, now: Instant)
    requires ValidSetting(s) && SetComplete(t, hd, cd, tokens, s, now)
    ensures now != ZERO_TIME
  {
    hide ValidRecord, StateAt;
    CompleteAfterAuthorityDate(t.host, s, tokens.Some?, now);
  }
}

/** What a successful verification says about time and about the people who signed. */
module SignedTimeline {
  import opened Prelude
  import opened Calendar
  import opened Text
  import opened Evidence
  import opened EvidenceSet
  import opened TrustPolicy
  import opened VerifiedSet

  predicate Reviewed(r: Record) {
    r.attestation.reviewedAt.Stamp?
  }

  predicate Captured(r: Record) {
    && r.methodology.Some? && r.methodology.value.started.Stamp? && r.methodology.value.ended.Stamp?
  }

  /** Reviews of host and client, then the capture, then the session review, before any expiry. */
  predicate Chronicle(t: Trio, now: Instant) {
    && Reviewed(t.host) && Reviewed(t.client) && Reviewed(t.session) && Captured(t.session)
    && t.host.expires.Stamp? && t.client.expires.Stamp? && t.session.expires.Stamp?
    && var start, end := t.session.methodology.value.started.instant, t.session.methodology.value.ended.instant;
    && t.host.attestation.reviewedAt.instant < start && t.client.attestation.reviewedAt.instant < start
    && start < end <= t.session.attestation.reviewedAt.instant
    && now < t.session.expires.instant
    && t.session.expires.instant <= t.host.expires.instant && t.session.expires.instant <= t.client.expires.instant
  }

  lemma CompleteSetChronicle(t: Trio, hd: string, cd: string, tokens: Option<Tokens>, s: Setting, now: Instant)
    requires ValidSetting(s) && SetComplete(t, hd, cd, tokens, s, now)
    ensures Chronicle(t, now)
  {
    hide ValidRecord, ValidSetting, IsSha256, MeetsMeasurements, NothingInFuture;
    ShapeOfRecord(t.host, s.supported);
    ShapeOfRecord(t.client, s.supported);
    ShapeOfRecord(t.session, s.supported);
    CaptureOfRecord(t.session, s.supported);
  }

  lemma CaptureOfRecord(r: Record, supported: (string, string) -> bool)
    requires ValidRecord(r, supported) && r.methodology.Some? && r.methodology.value.started.Stamp?
    ensures r.methodology.value.ended.Stamp?
    ensures r.methodology.value.started.instant < r.methodology.value.ended.instant
    ensures r.attestation.level != SelfAttested ==> r.methodology.value.ended.instant <= r.attestation.reviewedAt.instant
  {
    hide ValidChecks, ValidMeasurements, ValidTimes, ValidProfile, ValidSubject, Seconds, Ceiling, Value;
  }

  /** One signature against the records, the key that made it, and the policy. */
  predicate SignedInTime(s: Signature, k: Key, policy: Policy, x: Parsed, now: Instant) {
    && s.signedAt.Stamp? && policy.validFrom.Stamp? && policy.expires.Stamp? && k.notBefore.Stamp? && k.notAfter.Stamp?
    && x.payload.created.Stamp? && x.payload.expires.Stamp? && Reviewed(x.trio.session)
    && x.trio.session.attestation.reviewedAt.instant <= s.signedAt.instant <= now
    && policy.validFrom.instant <= k.notBefore.instant <= x.payload.created.instant <= s.signedAt.instant
    && s.signedAt.instant < x.payload.expires.instant <= k.notAfter.instant <= policy.expires.instant
  }

  predicate TrustedSigner(k: Key, policy: Policy, x: Parsed) {
    k in policy.keys && !k.revoked && InScope(k, x.payload)
  }

  lemma {:induction false} SignersAreLookups(signatures: seq<Signature>, keys: seq<Key>)
    requires forall s | s in signatures :: Lookup(keys, s.keyId).Some?
    ensures |Signers(signatures, keys)| == |signatures|
    ensures forall i | 0 <= i < |signatures| :: Lookup(keys, signatures[i].keyId) == Some(Signers(signatures, keys)[i])
  {
    hide Lookup;
    if signatures != [] {
      SignersAreLookups(signatures[..|signatures| - 1], keys);
    }
  }

  /** Signatures listed in strict key order come from different keys. */
  lemma SignersAreDistinct(signatures: seq<Signature>, keys: seq<Key>)
    requires StrictlySorted(SignatureIds(signatures))
    requires forall s | s in signatures :: Lookup(keys, s.keyId).Some?
    ensures var signers := Signers(signatures, keys);
            forall i, j | 0 <= i < j < |signers| :: signers[i].keyId != signers[j].keyId
  {
    SortedIsDistinct(SignatureIds(signatures));
    SignersAreLookups(signatures, keys);
    var signers := Signers(signatures, keys);
    hide Signers, Lookup, StrictlySorted;
    forall i, j | 0 <= i < j < |signers|
      ensures signers[i].keyId != signers[j].keyId
    {
      assert SignatureIds(signatures)[i] != SignatureIds(signatures)[j];
      assert Lookup(keys, signatures[i].keyId) == Some(signers[i]) && Lookup(keys, signatures[j].keyId) == Some(signers[j]);
    }
  }

  lemma GoodSignatureInTime(s: Signature, policy: Policy, x: Parsed, w: World, now: Instant)
    requires Canonical(x.payload.created) && Canonical(x.payload.expires) && x.envelope.payload.Some?
    requires ValidProvision(policy, w.ids) && Canonical(s.signedAt) && s.signedAt.instant <= now
    requires SignatureGood(s, policy, x, w)
    ensures Lookup(policy.keys, s.keyId).Some?
    ensures TrustedSigner(Lookup(policy.keys, s.keyId).value, policy, x)
    ensures SignedInTime(s, Lookup(policy.keys, s.keyId).value, policy, x, now)
  {
    var k := Lookup(policy.keys, s.keyId).value;
    assert ValidKey(k, policy.validFrom.instant, policy.expires.instant, w.ids);
    hide StrictlySorted, Lookup, OnePrincipalPerRole, HasRole;
  }

  /**
   * Every verified set satisfies one timeline: host and client review, capture start, capture end, session review, every
   * signature, now, session expiry, host and client expiry; with every signature inside its key's window, the payload's
   * lifetime and the policy's window, and the payload's lifetime inside both windows.
   */
  lemma VerifiedSetTimeline(sub: Submission, w: World, now: Instant)
    requires ValidSetting(w.setting) && Accepts(sub, w, now)
    ensures var x, policy := Parse(sub, w).value, sub.policy.value;
            && Chronicle(x.trio, now)
            && forall s | s in x.envelope.signatures ::
                 Lookup(policy.keys, s.keyId).Some?
                 && SignedInTime(s, Lookup(policy.keys, s.keyId).value, policy, x, now)
  {
    ParsedIsValid(sub, w);
    var x, policy := Parse(sub, w).value, sub.policy.value;
    CompleteSetChronicle(x.trio, x.payload.hostDigest, x.payload.clientDigest, Some(sub.tokens), w.setting, now);
    hide Parse, SetComplete, ValidProvision, ValidPayload, Chronicle, SignatureGood, Lookup, Quorum, SignedInTime;
    assert x.envelope.payload.Some?;
    forall s | s in x.envelope.signatures
      ensures Lookup(policy.keys, s.keyId).Some? && SignedInTime(s, Lookup(policy.keys, s.keyId).value, policy, x, now)
    {
      assert Canonical(s.signedAt);
      GoodSignatureInTime(s, policy, x, w, now);
    }
  }

  /** One key per signature, pairwise distinct, each a trusted signer, and an independent pair among them. */
  predicate TrustedSigners(signers: seq<Key>, policy: Policy, x: Parsed) {
    && |signers| == |x.envelope.signatures| >= MIN_SIGNATURES
    && (forall k | k in signers :: TrustedSigner(k, policy, x))
    && (forall i, j | 0 <= i < j < |signers| :: signers[i].keyId != signers[j].keyId)
    && Quorum(signers)
  }

  lemma AcceptedSigners(sub: Submission, policy: Policy, x: Parsed, w: World, now: Instant)
    requires ValidSetting(w.setting) && ValidEnvelope(x.envelope, w) && ValidPayload(x.payload, w)
    requires AcceptsParsed(sub, policy, x, w, now)
    ensures TrustedSigners(Signers(x.envelope.signatures, policy.keys), policy, x)
  {
    var signatures := x.envelope.signatures;
    hide ValidEnvelope, SetComplete, ValidProvision, ValidPayload, SignatureGood, Lookup, Quorum, StrictlySorted, TrustedSigner, Less;
    hide BindsRecords, BindsBytes, MatchesCell, ValidSetting, NoneInFuture, Signers;
    PayloadIsDated(x, w);
    EnvelopeIsSorted(x, w);
    forall s | s in signatures
      ensures Lookup(policy.keys, s.keyId).Some? && TrustedSigner(Lookup(policy.keys, s.keyId).value, policy, x)
    {
      SignatureIsDated(s, x, now, w);
      GoodSignatureInTime(s, policy, x, w, now);
    }
    SignersAreLookups(signatures, policy.keys);
    SignersAreDistinct(signatures, policy.keys);
    var signers := Signers(signatures, policy.keys);
    forall k | k in signers
      ensures TrustedSigner(k, policy, x)
    {
      var i :| 0 <= i < |signers| && signers[i] == k;
      assert signatures[i] in signatures;
    }
  }

  /**
   * The signers of a verified set: one per signature, pairwise distinct, every one an unrevoked key of the policy whose
   * scope covers the set, and among them a lab observer and an independent reviewer of different principals and
   * organizations.
   */
  lemma VerifiedSetSigners(sub: Submission, w: World, now: Instant)
    requires ValidSetting(w.setting) && Accepts(sub, w, now)
    ensures ValidEnvelope(Parse(sub, w).value.envelope, w) && ValidPayload(Parse(sub, w).value.payload, w)
    ensures var x, policy := Parse(sub, w).value, sub.policy.value;
            var signers, verified := Signers(x.envelope.signatures, policy.keys), SetOf(x, policy, w);
            && TrustedSigners(signers, policy, x)
            && verified.keyIds == KeyIds(signers) && verified.principals == Principals(signers)
            && verified.organizations == Organizations(signers)
  {
    ParsedIsValid(sub, w);
    hide Parse, ValidEnvelope, ValidPayload, TrustedSigners, AcceptsParsed, ValidSetting, Signers;
    AcceptedSigners(sub, sub.policy.value, Parse(sub, w).value, w, now);
  }

  lemma EnvelopeIsSorted(x: Parsed, w: World)
    requires ValidEnvelope(x.envelope, w)
    ensures StrictlySorted(SignatureIds(x.envelope.signatures)) && |x.envelope.signatures| >= MIN_SIGNATURES
  {
  }

  lemma SignatureIsDated(s: Signature, x: Parsed, now: Instant, w: World)
    requires ValidEnvelope(x.envelope, w) && NoneInFuture(x.envelope.signatures, now) && s in x.envelope.signatures
    ensures Canonical(s.signedAt) && s.signedAt.instant <= now && x.envelope.payload.Some?
  {
    hide StrictlySorted;
  }
}

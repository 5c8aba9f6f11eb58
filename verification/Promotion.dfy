/** Promotion of a verified set to a score-bearing readiness result. */
module Promotion {
  import opened Prelude
  import opened Calendar
  import opened Evidence
  import opened EvidenceSet
  import opened TrustPolicy
  import opened VerifiedSet
  import opened SignedTimeline

  const GATE_WEIGHT: int := 25
  const GATE_IDS: seq<string> := ["physical-host", "client-runtime", "session-quality", "gameplay-interaction"]

  datatype Gate = Gate(id: string, weight: int, passed: bool)

  datatype Result = Result(source: Verified, score: int, safe: bool, gates: seq<Gate>)

  predicate ValidCell(v: Verified, w: World) {
    && w.setting.supported(v.clientSubject.platform, v.clientSubject.architecture)
    && SupportedHost(v.route, v.hostSubject)
  }

  /** Everything promotion checks again about a set that is already authenticated. */
  predicate Promotable(v: Verified, w: World, now: Instant) {
    && now != ZERO_TIME && v.created != ZERO_TIME && v.expires != ZERO_TIME
    && v.created <= now < v.expires
    && v.profile == PROFILE && ValidCell(v, w)
    && IsSha256(v.manifestDigest) && IsSha256(v.hostDigest) && IsSha256(v.clientDigest)
    && IsSha256(v.sessionDigest) && IsSha256(v.payloadDigest)
    && |v.keyIds| >= MIN_SIGNATURES && |v.keyIds| == |v.principals| == |v.organizations|
    && w.codec.trim(v.policyId) != "" && w.codec.trim(v.setId) != "" && w.codec.trim(v.runId) != ""
  }

  /** The fixed gates, all passed; the zero value of a set (`None`) is refused. */
  method PromoteAt(proof: Option<Verified>, w: World, now: Instant) returns (r: Option<Result>)
    ensures r.Some? <==> proof.Some? && Promotable(proof.value, w, now)
    ensures r.Some? ==> r.value.source == proof.value && r.value.safe && r.value.score == 100
    ensures r.Some? ==> |r.value.gates| == |GATE_IDS| && forall i | 0 <= i < |GATE_IDS| ::
                          r.value.gates[i] == Gate(GATE_IDS[i], GATE_WEIGHT, true)
  {
    if proof.None? || now == ZERO_TIME {
      return None;
    }
    var v := proof.value;
    if v.created == ZERO_TIME || v.expires == ZERO_TIME || now < v.created || now >= v.expires {
      return None;
    }
    if v.profile != PROFILE || !ValidCell(v, w) {
      return None;
    }
    hide IsSha256, ValidCell;
    if !IsSha256(v.manifestDigest) || !IsSha256(v.hostDigest) || !IsSha256(v.clientDigest)
       || !IsSha256(v.sessionDigest) || !IsSha256(v.payloadDigest)
    {
      return None;
    }
    if |v.keyIds| < MIN_SIGNATURES || |v.keyIds| != |v.principals| || |v.keyIds| != |v.organizations| {
      return None;
    }
    if w.codec.trim(v.policyId) == "" || w.codec.trim(v.setId) == "" || w.codec.trim(v.runId) == "" {
      return None;
    }
    var gates: seq<Gate> := [];
    for i := 0 to |GATE_IDS|
      invariant |gates| == i && forall k | 0 <= k < i :: gates[k] == Gate(GATE_IDS[k], GATE_WEIGHT, true)
    {
      gates := gates + [Gate(GATE_IDS[i], GATE_WEIGHT, true)];
    }
    r := Some(Result(v, |gates| * GATE_WEIGHT, true, gates));
  }

  lemma LifetimeOf(x: Parsed, w: World)
    requires ValidPayload(x.payload, w)
    ensures Canonical(x.payload.created) && Canonical(x.payload.expires)
    ensures x.payload.created.instant < x.payload.expires.instant
  {
  }

  /** A complete set was created after the authority it is bound to, far from the zero time. */
  lemma CompleteSetIsRecent(sub: Submission, policy: Policy, x: Parsed, w: World, now: Instant)
    requires ValidSetting(w.setting) && ValidEnvelope(x.envelope, w) && ValidPayload(x.payload, w)
    requires AcceptsParsed(sub, policy, x, w, now)
    ensures ZERO_TIME < x.payload.created.instant < x.payload.expires.instant
  {
    hide ValidEnvelope, ValidPayload, ValidProvision, SignatureGood, Quorum, Signers, NoneInFuture, MatchesCell, BindsBytes, ValidBase;
    hide ValidRecord, SupportedHost, Linked, StateAt, ValidSetting;
    LifetimeOf(x, w);
    CompleteAfterAuthorityDate(x.trio.session, w.setting, true, now);
  }

  /** Verification at any instant makes promotion succeed throughout the lifetime of the set, always with score 100. */
  lemma VerifiedSetsPromote(sub: Submission, w: World, t: Instant, now: Instant)
    requires Lawful(w) && Accepts(sub, w, t)
    requires var created, expires := Parse(sub, w).value.payload.created, Parse(sub, w).value.payload.expires;
             created.Stamp? && expires.Stamp? && created.instant <= now < expires.instant
    ensures ValidEnvelope(Parse(sub, w).value.envelope, w) && ValidPayload(Parse(sub, w).value.payload, w)
    ensures Promotable(SetOf(Parse(sub, w).value, sub.policy.value, w), w, now)
  {
    ParsedIsValid(sub, w);
    var x, policy := Parse(sub, w).value, sub.policy.value;
    hide Parse;
    AcceptedSetPromotes(sub, policy, x, w, t, now);
  }

  lemma DigestShape(w: World, data: Bytes)
    requires Lawful(w)
    ensures IsSha256(w.codec.sha256(data))
  {
  }

  lemma AcceptedSetPromotes(sub: Submission, policy: Policy, x: Parsed, w: World, t: Instant, now: Instant)
    requires Lawful(w) && ValidEnvelope(x.envelope, w) && ValidPayload(x.payload, w)
    requires AcceptsParsed(sub, policy, x, w, t)
    requires x.payload.created.instant <= now < x.payload.expires.instant
    ensures Promotable(SetOf(x, policy, w), w, now)
  {
    hide ValidEnvelope, ValidProvision, AcceptsParsed, ValidSetting;
    CompleteSetIsRecent(sub, policy, x, w, t);
    PayloadIsDated(x, w);
    DigestShape(w, x.envelope.payload.value);
    AcceptedSigners(sub, policy, x, w, t);
    hide TrustedSigner, Quorum, Signers;
  }
}

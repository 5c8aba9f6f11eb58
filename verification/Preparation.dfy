/** Preparation of payload bytes that reviewers sign, and what those bytes are good for. */
module Preparation {
  import opened Prelude
  import opened Calendar
  import opened Evidence
  import opened EvidenceSet
  import opened TrustPolicy
  import opened VerifiedSet

  datatype Request = Request(host: Bytes, client: Bytes, session: Bytes, expected: Cell, tokens: Tokens,
                             setId: string, policyId: string)

  /** The instants whose year has four digits, from year 0 through year 9999. */
  const FIRST_FORMATTED: Instant := -62_167_219_200 * SECOND
  const LAST_FORMATTED: Instant := 253_402_300_800 * SECOND

  /** The text of an instant in UTC: canonical when its year has four digits, and no timestamp otherwise. */
  function Rendered(t: Instant): Stamp {
    if FIRST_FORMATTED <= t < LAST_FORMATTED then Stamp(t, true) else Malformed("year out of range")
  }

  function ParseTrio(q: Request, w: World): Option<Trio> {
    var host, client, session := ParseRecord(q.host, w), ParseRecord(q.client, w), ParseRecord(q.session, w);
    if host.None? || client.None? || session.None? then None
    else Some(Trio(host.value, client.value, session.value))
  }

  /** The set ID asked for, or a random one (`None` when no randomness is available) when the request leaves it blank. */
  function ChosenId(q: Request, random: Option<string>, w: World): Option<string> {
    if w.codec.trim(q.setId) == "" then random else Some(w.codec.trim(q.setId))
  }

  function Prepared(q: Request, t: Trio, setId: string, w: World): Payload
    requires ValidTrio(t, w.setting)
  {
    Payload(true, setId, t.host.runId, t.host.route, PROFILE, q.policyId,
            Rendered(t.session.created.instant), Rendered(t.session.expires.instant),
            t.host.manifestAsOf, t.host.manifestDigest, t.host.subject, t.client.subject,
            w.codec.sha256(q.host), w.codec.sha256(q.client), w.codec.sha256(q.session))
  }

  predicate WholeSeconds(r: Record) {
    r.created.Stamp? && r.expires.Stamp? && r.created.instant % SECOND == 0 && r.expires.instant % SECOND == 0
  }

  /** The records are complete at `now`, on whole seconds, and there is an identifier for the set. */
  ghost predicate Ready(q: Request, random: Option<string>, t: Trio, w: World, now: Instant)
    requires ValidSetting(w.setting)
  {
    && SetComplete(t, w.codec.sha256(q.host), w.codec.sha256(q.client), Some(q.tokens), w.setting, now)
    && WholeSeconds(t.session)
    && ChosenId(q, random, w).Some? && w.codec.setId(ChosenId(q, random, w).value)
  }

  /** Exactly when preparation succeeds. The comparison with the three records needs no mention: it cannot fail here. */
  ghost predicate Preparable(q: Request, random: Option<string>, w: World, now: Instant)
    requires ValidSetting(w.setting)
  {
    && now != ZERO_TIME && w.codec.trim(q.policyId) != "" && ParseTrio(q, w).Some?
    && var t := ParseTrio(q, w).value;
    && Ready(q, random, t, w, now)
    && ValidTrio(t, w.setting)
    && var p := Prepared(q, t, ChosenId(q, random, w).value, w);
    && ParsePayload(w.codec.encodePayload(p), w).Some?
    && MatchesCell(q.expected, p)
  }

  lemma TrioIsValid(q: Request, w: World)
    requires ParseTrio(q, w).Some?
    ensures ValidTrio(ParseTrio(q, w).value, w.setting)
  {
    hide ValidRecord;
  }

  /** What parses back from prepared bytes is what was prepared. */
  lemma PreparedParsesBack(p: Payload, w: World)
    requires Lawful(w) && ParsePayload(w.codec.encodePayload(p), w).Some?
    ensures ParsePayload(w.codec.encodePayload(p), w) == Some(p) && ValidPayload(p, w)
  {
    hide ValidPayload;
    assert Reencoded(p, w).Some? && ValidPayload(Reencoded(p, w).value, w);
  }

  /** A complete trio always agrees with the payload prepared from it: the last comparison of the code is redundant. */
  lemma PreparedBinds(q: Request, t: Trio, setId: string, w: World, now: Instant)
    requires ValidSetting(w.setting)
    requires SetComplete(t, w.codec.sha256(q.host), w.codec.sha256(q.client), Some(q.tokens), w.setting, now)
    requires ValidPayload(Prepared(q, t, setId, w), w)
    ensures BindsRecords(Prepared(q, t, setId, w), t)
  {
    hide ValidRecord, NothingInFuture, MeetsMeasurements, MeetsProfile, ValidPayload, IsSha256, ValidSetting;
    ProfileOf(t.host, w);
    ProfileOf(t.client, w);
    ProfileOf(t.session, w);
    PreparedStamps(q, t, setId, w);
  }

  lemma ProfileOf(r: Record, w: World)
    requires ValidRecord(r, w.setting.supported)
    ensures r.profileKnown && r.created.Stamp? && r.expires.Stamp?
  {
  }

  lemma PreparedStamps(q: Request, t: Trio, setId: string, w: World)
    requires ValidTrio(t, w.setting) && ValidPayload(Prepared(q, t, setId, w), w)
    ensures var p := Prepared(q, t, setId, w);
            && t.session.created.Stamp? && t.session.expires.Stamp? && p.created.Stamp? && p.expires.Stamp?
            && p.created.instant == t.session.created.instant && p.expires.instant == t.session.expires.instant
  {
    ProfileOf(t.session, w);
    hide ValidRecord;
  }

  /** Parse, evaluate, take the session's lifetime, encode, and read the result back before handing it out. */
  method PreparePayloadAt(q: Request, random: Option<string>, w: World, now: Instant) returns (data: Option<Bytes>)
    requires Lawful(w)
    ensures data.Some? <==> Preparable(q, random, w, now)
    ensures data.Some? ==>
              && ValidTrio(ParseTrio(q, w).value, w.setting)
              && data.value == w.codec.encodePayload(
                                 Prepared(q, ParseTrio(q, w).value, ChosenId(q, random, w).value, w))
  {
    hide ValidRecord, ParsePayload, MatchesCell, BindsRecords, Evaluable, SetStateAt;
    if now == ZERO_TIME || w.codec.trim(q.policyId) == "" {
      return None;
    }
    var parsed := ParseTrio(q, w);
    if parsed.None? {
      return None;
    }
    var t := parsed.value;
    TrioIsValid(q, w);
    hide ParseTrio, Lawful, ValidTrio;
    var ready, setId := PrepareIdentity(q, random, t, w, now);
    if !ready {
      return None;
    }
    var p := Prepared(q, t, setId, w);
    var text := w.codec.encodePayload(p);
    hide Ready, Prepared, Rendered;
    var back := ParsePayload(text, w);
    if |text| > MAX_PAYLOAD {
      TooLongDoesNotParse(text, w);
      return None;
    }
    if back.None? {
      return None;
    }
    PreparedParsesBack(p, w);
    if !MatchesCell(q.expected, back.value) {
      return None;
    }
    assert BindsRecords(p, t) by {
      PreparedFits(q, random, t, setId, w, now);
    }
    if !BindsRecords(back.value, t) {
      return None;
    }
    data := Some(text);
  }

  lemma TooLongDoesNotParse(text: Bytes, w: World)
    requires |text| > MAX_PAYLOAD
    ensures ParsePayload(text, w).None?
  {
  }

  lemma PreparedFits(q: Request, random: Option<string>, t: Trio, setId: string, w: World, now: Instant)
    requires ValidSetting(w.setting) && Ready(q, random, t, w, now) && ValidTrio(t, w.setting)
    requires ValidPayload(Prepared(q, t, setId, w), w)
    ensures BindsRecords(Prepared(q, t, setId, w), t)
  {
    hide ValidPayload, SetComplete, BindsRecords, ValidTrio, Prepared;
    PreparedBinds(q, t, setId, w, now);
  }

  method PrepareIdentity(q: Request, random: Option<string>, t: Trio, w: World, now: Instant)
    returns (ready: bool, setId: string)
    requires ValidSetting(w.setting) && ValidTrio(t, w.setting) && now != ZERO_TIME
    ensures ready <==> Ready(q, random, t, w, now)
    ensures ready ==> Some(setId) == ChosenId(q, random, w)
  {
    hide ValidRecord, SetStateAt, Evaluable, ValidSetting;
    setId := "";
    var evaluation := EvaluateSetAt(t, w.codec.sha256(q.host), w.codec.sha256(q.client), Some(q.tokens), w.setting, now);
    if evaluation != Some(Complete) {
      return false, setId;
    }
    if !WholeSeconds(t.session) {
      return false, setId;
    }
    setId := w.codec.trim(q.setId);
    if setId == "" {
      if random.None? {
        return false, setId;
      }
      setId := random.value;
    }
    ready := w.codec.setId(setId);
  }

  // ---------------------------------------------------------------- what prepared bytes are good for

  /** An envelope around prepared bytes, signed well enough, under a policy that covers the payload's lifetime. */
  ghost predicate WellSigned(sub: Submission, x: Parsed, policy: Policy, w: World)
    requires ValidEnvelope(x.envelope, w) && ValidPayload(x.payload, w)
  {
    && w.codec.decodeEnvelope(sub.envelope) == Some(x.envelope) && sub.policy == Some(policy)
    && ValidBase(policy, w.ids) && policy.status == Provisioned && ValidProvision(policy, w.ids)
    && policy.policyId == x.payload.policyId
    && policy.validFrom.instant <= x.payload.created.instant && x.payload.expires.instant <= policy.expires.instant
    && (forall s | s in x.envelope.signatures :: SignatureGood(s, policy, x, w))
    && Quorum(Signers(x.envelope.signatures, policy.keys))
  }

  /** The submission carries the very bytes and tokens the payload was prepared from. */
  predicate SameInputs(sub: Submission, q: Request) {
    && sub.host == q.host && sub.client == q.client && sub.session == q.session
    && sub.expected == q.expected && sub.tokens == q.tokens
  }

  /**
   * Prepared bytes, well signed under a covering policy, are verified at an instant exactly when the evidence set is
   * complete at that instant and no signature is in the future.
   */
  lemma PreparedBytesVerify(q: Request, random: Option<string>, sub: Submission, x: Parsed, policy: Policy, w: World,
                            prepared: Instant, later: Instant)
    requires Lawful(w) && Preparable(q, random, w, prepared) && SameInputs(sub, q)
    requires ValidEnvelope(x.envelope, w) && ValidPayload(x.payload, w) && Some(x.trio) == ParseTrio(q, w)
    requires ValidTrio(x.trio, w.setting) && x.payload == Prepared(q, x.trio, ChosenId(q, random, w).value, w)
    requires x.envelope.payload == Some(w.codec.encodePayload(x.payload))
    requires WellSigned(sub, x, policy, w)
    ensures Accepts(sub, w, later) <==>
            && SetComplete(x.trio, w.codec.sha256(q.host), w.codec.sha256(q.client), Some(q.tokens), w.setting, later)
            && NoneInFuture(x.envelope.signatures, later)
  {
    hide ParseTrio, Preparable, Prepared, ParseRecord, ValidEnvelope, ValidPayload, ValidTrio, ValidProvision, ValidBase;
    hide SignatureGood, Quorum, Signers, SetComplete, NoneInFuture, AcceptsParsed;
    PreparedIsReady(q, random, x, w, prepared);
    SubmissionParses(q, sub, x, w);
    if SetComplete(x.trio, w.codec.sha256(q.host), w.codec.sha256(q.client), Some(q.tokens), w.setting, later) {
      CompleteWithinLifetime(x, Some(q.tokens), w, later);
      NotZeroWhenComplete(x.trio, x.payload.hostDigest, x.payload.clientDigest, Some(q.tokens), w.setting, later);
    }
    hide Parse, Lawful;
    AcceptanceOfBound(sub, policy, x, w, later);
  }

  lemma PreparedIsReady(q: Request, random: Option<string>, x: Parsed, w: World, prepared: Instant)
    requires Lawful(w) && Preparable(q, random, w, prepared) && ValidTrio(x.trio, w.setting)
    requires Some(x.trio) == ParseTrio(q, w) && ValidPayload(x.payload, w)
    requires x.payload == Prepared(q, x.trio, ChosenId(q, random, w).value, w)
    ensures MatchesCell(q.expected, x.payload) && BindsRecords(x.payload, x.trio)
    ensures ParsePayload(w.codec.encodePayload(x.payload), w).Some?
    ensures x.payload.hostDigest == w.codec.sha256(q.host) && x.payload.clientDigest == w.codec.sha256(q.client)
    ensures x.payload.sessionDigest == w.codec.sha256(q.session)
  {
    hide ParseTrio, ValidPayload, ParsePayload, MatchesCell, BindsRecords, SetComplete, ValidRecord, Rendered;
    PreparedFits(q, random, x.trio, ChosenId(q, random, w).value, w, prepared);
  }

  lemma SubmissionParses(q: Request, sub: Submission, x: Parsed, w: World)
    requires Lawful(w) && SameInputs(sub, q) && ValidEnvelope(x.envelope, w) && ValidPayload(x.payload, w)
    requires Some(x.trio) == ParseTrio(q, w) && w.codec.decodeEnvelope(sub.envelope) == Some(x.envelope)
    requires x.envelope.payload == Some(w.codec.encodePayload(x.payload))
    requires ParsePayload(w.codec.encodePayload(x.payload), w).Some?
    ensures Parse(sub, w) == Some(x)
  {
    PreparedParsesBack(x.payload, w);
    hide ParseRecord, ValidPayload, ValidEnvelope, ParsePayload, Lawful;
  }

  lemma AcceptanceOfBound(sub: Submission, policy: Policy, x: Parsed, w: World, later: Instant)
    requires ValidSetting(w.setting) && ValidEnvelope(x.envelope, w) && ValidPayload(x.payload, w)
    requires TimelesslyAccepted(sub, policy, x, w)
    ensures AcceptsParsed(sub, policy, x, w, later) <==>
            && x.payload.created.instant <= later < x.payload.expires.instant
            && SetComplete(x.trio, x.payload.hostDigest, x.payload.clientDigest, Some(sub.tokens), w.setting, later)
            && NoneInFuture(x.envelope.signatures, later)
  {
    hide ValidEnvelope, ValidPayload, ValidProvision, ValidBase, SignatureGood, Quorum, Signers, SetComplete, NoneInFuture;
    hide MatchesCell, BindsBytes, BindsRecords;
  }

  /** A complete set is inside the lifetime that its session record gives the payload. */
  lemma CompleteWithinLifetime(x: Parsed, tokens: Option<Tokens>, w: World, now: Instant)
    requires ValidSetting(w.setting) && BindsRecords(x.payload, x.trio)
    requires SetComplete(x.trio, x.payload.hostDigest, x.payload.clientDigest, tokens, w.setting, now)
    ensures x.payload.created.instant <= now < x.payload.expires.instant
  {
    hide ValidRecord, Linked, MeetsMeasurements, MeetsProfile, IsSha256, ValidSetting, TimelesslyComplete;
  }
}

/** A host, a client and a session record evaluated together, and what the passing of time can do to the result. */
module EvidenceSet {
  import opened Prelude
  import opened Calendar
  import opened Evidence
  import Compat

  datatype Trio = Trio(host: Record, client: Record, session: Record)

  datatype Tokens = Tokens(host: Token, client: Token, session: Token)

  /** What evaluation takes from its surroundings: the compiled authority, the platform table, the record digest. */
  datatype Setting = Setting(authority: Authority, supported: (string, string) -> bool, recordDigest: Record -> string)

  predicate ValidSetting(s: Setting) {
    ValidAuthority(s.authority)
  }

  predicate ValidTrio(t: Trio, s: Setting) {
    ValidRecord(t.host, s.supported) && ValidRecord(t.client, s.supported) && ValidRecord(t.session, s.supported)
  }

  /** The inputs that evaluation refuses outright, whatever the time. */
  predicate Evaluable(t: Trio, hostDigest: string, clientDigest: string, tokens: Option<Tokens>, s: Setting) {
    && t.host.kind == HostRecord && t.client.kind == ClientRecord && t.session.kind == SessionRecord
    && IsSha256(hostDigest) && IsSha256(clientDigest)
    && t.host.route == t.client.route == t.session.route
    && ValidTrio(t, s)
    && (tokens.Some? ==>
          && tokens.value.host == Token(true, s.recordDigest(t.host))
          && tokens.value.client == Token(true, s.recordDigest(t.client))
          && tokens.value.session == Token(true, s.recordDigest(t.session)))
  }

  predicate ReviewedBefore(r: Record, start: Instant) {
    r.attestation.level != SelfAttested ==> r.attestation.reviewedAt.Stamp? && r.attestation.reviewedAt.instant < start
  }

  /** The session record is bound to exactly these host and client records, and outlived by them. */
  predicate Linked(t: Trio, hostDigest: string, clientDigest: string)
    requires t.session.bindings.Some? && t.session.methodology.Some?
    requires t.session.expires.Stamp? && t.host.expires.Stamp? && t.client.expires.Stamp?
  {
    && t.session.bindings.value == Bindings(hostDigest, clientDigest)
    && t.session.subject == t.client.subject
    && t.host.runId == t.client.runId == t.session.runId
    && t.session.expires.instant <= t.host.expires.instant && t.session.expires.instant <= t.client.expires.instant
    && var start := t.session.methodology.value.started;
    && (start.Stamp? ==> ReviewedBefore(t.host, start.instant) && ReviewedBefore(t.client, start.instant))
  }

  function RecordState(r: Record, s: Setting, verified: bool, now: Instant): EvaluationState
    requires ValidSetting(s) && ValidRecord(r, s.supported)
  {
    StateAt(r, s.authority, s.supported, verified, now)
  }

  function SetStateAt(t: Trio, hostDigest: string, clientDigest: string, tokens: Option<Tokens>, s: Setting, now: Instant)
    : EvaluationState
    requires ValidSetting(s) && Evaluable(t, hostDigest, clientDigest, tokens, s)
  {
    var want := if tokens.Some? then Complete else ClaimsComplete;
    var host := RecordState(t.host, s, tokens.Some?, now);
    var client := RecordState(t.client, s, tokens.Some?, now);
    var session := RecordState(t.session, s, tokens.Some?, now);
    if host == Expired || client == Expired || session == Expired then Expired
    else if Linked(t, hostDigest, clientDigest) && host == want && client == want && session == want then want
    else Pending
  }

  datatype SetReason = HostBinding | ClientBinding | SubjectMismatch | RunMismatch | OutlivesHost | OutlivesClient
                     | HostReviewLate | ClientReviewLate | HostNot(state: EvaluationState) | ClientNot(state: EvaluationState)
                     | SessionNot(state: EvaluationState)

  method LinkReasons(t: Trio, hostDigest: string, clientDigest: string) returns (reasons: seq<SetReason>)
    requires t.session.bindings.Some? && t.session.methodology.Some?
    requires t.session.expires.Stamp? && t.host.expires.Stamp? && t.client.expires.Stamp?
    requires t.session.methodology.value.started.Stamp? <==> !t.session.methodology.value.started.Blank?
    requires t.host.attestation.level != SelfAttested ==> t.host.attestation.reviewedAt.Stamp?
    requires t.client.attestation.level != SelfAttested ==> t.client.attestation.reviewedAt.Stamp?
    ensures reasons == [] <==> Linked(t, hostDigest, clientDigest)
  {
    reasons := [];
    if t.session.bindings.value.host != hostDigest {
      reasons := reasons + [HostBinding];
    }
    if t.session.bindings.value.client != clientDigest {
      reasons := reasons + [ClientBinding];
    }
    if t.session.subject.platform != t.client.subject.platform
       || t.session.subject.architecture != t.client.subject.architecture
    {
      reasons := reasons + [SubjectMismatch];
    }
    if t.host.runId != t.client.runId || t.host.runId != t.session.runId {
      reasons := reasons + [RunMismatch];
    }
    if t.session.expires.instant > t.host.expires.instant {
      reasons := reasons + [OutlivesHost];
    }
    if t.session.expires.instant > t.client.expires.instant {
      reasons := reasons + [OutlivesClient];
    }
    var started := t.session.methodology.value.started;
    if !started.Blank? {
      if t.host.attestation.level != SelfAttested && !(t.host.attestation.reviewedAt.instant < started.instant) {
        reasons := reasons + [HostReviewLate];
      }
      if t.client.attestation.level != SelfAttested && !(t.client.attestation.reviewedAt.instant < started.instant) {
        reasons := reasons + [ClientReviewLate];
      }
    }
  }

  /** Evaluation of a set: an error exactly for inputs that are not evaluable or a missing time. */
  method EvaluateSetAt(t: Trio, hostDigest: string, clientDigest: string, tokens: Option<Tokens>, s: Setting, now: Instant)
    returns (state: Option<EvaluationState>)
    requires ValidSetting(s)
    ensures state.Some? <==> now != ZERO_TIME && Evaluable(t, hostDigest, clientDigest, tokens, s)
    ensures state.Some? ==> state.value == SetStateAt(t, hostDigest, clientDigest, tokens, s, now)
  {
    hide ValidRecord, StateAt, IsSha256, ValidAuthority;
    if t.host.kind != HostRecord || t.client.kind != ClientRecord || t.session.kind != SessionRecord {
      return None;
    }
    if !IsSha256(hostDigest) || !IsSha256(clientDigest) {
      return None;
    }
    if t.host.route != t.client.route || t.host.route != t.session.route {
      return None;
    }
    var verified := tokens.Some?;
    var host := EvaluateAt(t.host, s.authority, s.supported, if verified then Some(tokens.value.host) else None,
                           s.recordDigest, now);
    if host.None? {
      return None;
    }
    var client := EvaluateAt(t.client, s.authority, s.supported, if verified then Some(tokens.value.client) else None,
                             s.recordDigest, now);
    if client.None? {
      return None;
    }
    var session := EvaluateAt(t.session, s.authority, s.supported, if verified then Some(tokens.value.session) else None,
                              s.recordDigest, now);
    if session.None? {
      return None;
    }
    ShapeOfRecord(t.host, s.supported);
    ShapeOfRecord(t.client, s.supported);
    ShapeOfRecord(t.session, s.supported);
    var reasons := LinkReasons(t, hostDigest, clientDigest);
    var want := if verified then Complete else ClaimsComplete;
    var expired := host.value == Expired || client.value == Expired || session.value == Expired;
    if host.value != want {
      reasons := reasons + [HostNot(host.value)];
    }
    if client.value != want {
      reasons := reasons + [ClientNot(client.value)];
    }
    if session.value != want {
      reasons := reasons + [SessionNot(session.value)];
    }
    if reasons != [] {
      return Some(if expired then Expired else Pending);
    }
    return Some(want);
  }

  // ---------------------------------------------------------------- time

  /** A record that has expired stays expired. */
  lemma ExpiredRecordStaysExpired(r: Record, s: Setting, verified: bool, t: Instant, u: Instant)
    requires ValidSetting(s) && ValidRecord(r, s.supported) && t <= u
    requires RecordState(r, s, verified, t) == Expired
    ensures RecordState(r, s, verified, u) == Expired
  {
  }

  /** Completeness at two instants is completeness at every instant between. */
  lemma CompleteRecordIsConvex(r: Record, s: Setting, verified: bool, t: Instant, u: Instant, v: Instant)
    requires ValidSetting(s) && ValidRecord(r, s.supported) && t <= u <= v
    requires RecordState(r, s, verified, t) == RecordState(r, s, verified, v) == if verified then Complete else ClaimsComplete
    ensures RecordState(r, s, verified, u) == RecordState(r, s, verified, t)
  {
    hide ValidRecord, TimelesslyComplete, Compat.ValidManifest;
    DayOfIsMonotone(t, u);
    DayOfIsMonotone(u, v);
    Compat.FreshnessOnlyAges(s.authority.manifest, t, u);
    Compat.FreshnessOnlyAges(s.authority.manifest, u, v);
    forall c | c in r.checks && c.observedAt.Stamp?
      ensures c.observedAt.instant <= u
    {
      assert c.observedAt.instant <= t;
    }
  }

  lemma ExpiredSetStaysExpired(t: Trio, hd: string, cd: string, tokens: Option<Tokens>, s: Setting, a: Instant, b: Instant)
    requires ValidSetting(s) && Evaluable(t, hd, cd, tokens, s) && a <= b
    requires SetStateAt(t, hd, cd, tokens, s, a) == Expired
    ensures SetStateAt(t, hd, cd, tokens, s, b) == Expired
  {
    hide ValidRecord;
    forall r | r in [t.host, t.client, t.session] && RecordState(r, s, tokens.Some?, a) == Expired
      ensures RecordState(r, s, tokens.Some?, b) == Expired
    {
      ExpiredRecordStaysExpired(r, s, tokens.Some?, a, b);
    }
    assert t.host in [t.host, t.client, t.session] && t.client in [t.host, t.client, t.session];
    assert t.session in [t.host, t.client, t.session];
  }

  ghost predicate SetComplete(t: Trio, hd: string, cd: string, tokens: Option<Tokens>, s: Setting, now: Instant)
    requires ValidSetting(s)
  {
    && Evaluable(t, hd, cd, tokens, s)
    && SetStateAt(t, hd, cd, tokens, s, now) == if tokens.Some? then Complete else ClaimsComplete
  }

  lemma CompleteSetIsConvex(t: Trio, hd: string, cd: string, tokens: Option<Tokens>, s: Setting,
                            a: Instant, b: Instant, c: Instant)
    requires ValidSetting(s) && a <= b <= c
    requires SetComplete(t, hd, cd, tokens, s, a) && SetComplete(t, hd, cd, tokens, s, c)
    ensures SetComplete(t, hd, cd, tokens, s, b)
  {
    hide ValidRecord, StateAt, Linked;
    CompleteRecordIsConvex(t.host, s, tokens.Some?, a, b, c);
    CompleteRecordIsConvex(t.client, s, tokens.Some?, a, b, c);
    CompleteRecordIsConvex(t.session, s, tokens.Some?, a, b, c);
  }

  /** No instant at which a record is complete is the zero time: the authority is dated two millennia later. */
  lemma CompleteAfterAuthorityDate(r: Record, s: Setting, verified: bool, now: Instant)
    requires ValidSetting(s) && ValidRecord(r, s.supported)
    requires RecordState(r, s, verified, now) == Complete || RecordState(r, s, verified, now) == ClaimsComplete
    ensures now >= AUTHORITATIVE_AS_OF * DAY > ZERO_TIME
    ensures r.created.instant >= AUTHORITATIVE_AS_OF * DAY
  {
    DayOfMidnight(DayOf(now), now);
    DayOfMidnight(DayOf(r.created.instant), r.created.instant);
  }
}

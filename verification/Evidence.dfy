/**
 * Validation-evidence records: what makes one valid, how one is evaluated at an instant, and how a host, a client and
 * a session record are evaluated together.
 */
module Evidence {
  import opened Prelude
  import opened Calendar
  import Compat

  /** A timestamp text, up to what the code can tell about it. Canonical means the exact whole-second UTC form. */
  datatype Stamp = Blank | Malformed(text: string) | Stamp(instant: Instant, canonical: bool)

  datatype RecordType = HostRecord | ClientRecord | SessionRecord | UnknownRecord(text: string)
  datatype Route = PhysicalWindows | PhysicalMacOs | UnknownRoute(text: string)
  datatype Level = SelfAttested | LabObserved | IndependentReview | UnknownLevel(text: string)
  datatype Status = Pass | Fail | Unverified | NotApplicable | UnknownStatus(text: string)
  datatype CheckId = HostPhysicalMachine | HostSupportedOs | HostHardware | HostSecurity | HostRiotInstallation
                   | HostLocalPracticeTool | HostStreamingServer
                   | ClientPlatform | ClientMoonlight | ClientDisplay | ClientAudio | ClientDecoder
                   | SessionPair | SessionAppList | SessionVideo | SessionKeyboardMouse | SessionAudio | SessionLatency
                   | SessionPracticeTool | SessionVanguardErrors | SessionPatchCurrent
                   | UnknownCheck(text: string)
  datatype Metric = SessionDuration | AverageFrameRate | EncodeLatency | NetworkLatency | DecodeLatency
                  | EndToEndLatency | DroppedFrames | OtherMetric(text: string)
  datatype Medium = UnverifiedMedium | KnownMedium(text: string) | UnknownMedium(text: string)

  datatype Artifact = Artifact(name: string, digest: string, size: int, mediaTypeValid: bool)
  datatype Check = Check(id: CheckId, status: Status, textsValid: bool, observedAt: Stamp, artifacts: seq<Artifact>)
  datatype Subject = Subject(platform: string, architecture: string)
  datatype Attestation = Attestation(level: Level, reviewerNamed: bool, reviewedAt: Stamp, artifacts: seq<Artifact>)
  datatype Bindings = Bindings(host: string, client: string)
  datatype Profile = Profile(width: int, height: int, frameRate: real, codec: Medium, transport: Medium)
  datatype Methodology = Methodology(versionKnown: bool, started: Stamp, ended: Stamp, samples: int, othersBlank: bool,
                                     collectorValid: bool, captureDigest: string)
  datatype Measurement = Measurement(id: Metric, value: real, unitRight: bool)

  /** One record. Fields whose texts matter only for being well formed are joined in `textsValid`. */
  datatype Record = Record(kind: RecordType, textsValid: bool, runId: string, route: Route, profileKnown: bool,
                           created: Stamp, expires: Stamp, manifestAsOf: Option<int>, manifestDigest: string,
                           subject: Subject, subjectRoleMatches: bool, attestation: Attestation,
                           bindings: Option<Bindings>, streamProfile: Option<Profile>,
                           methodology: Option<Methodology>, checks: seq<Check>, measurements: seq<Measurement>)

  const MAX_VALIDITY: int := 30 * DAY
  const MAX_ARTIFACT: int := 0x4000_0000
  const MAX_BUNDLE: int := 0x1_0000_0000
  const MAX_SESSION_SECONDS: int := 28_800
  const MAX_SAMPLES: int := 10_000_000

  // ---------------------------------------------------------------- record validation

  function RequiredChecks(kind: RecordType): seq<CheckId> {
    match kind
    case HostRecord => [HostPhysicalMachine, HostSupportedOs, HostHardware, HostSecurity, HostRiotInstallation,
                        HostLocalPracticeTool, HostStreamingServer]
    case ClientRecord => [ClientPlatform, ClientMoonlight, ClientDisplay, ClientAudio, ClientDecoder]
    case SessionRecord => [SessionPair, SessionAppList, SessionVideo, SessionKeyboardMouse, SessionAudio, SessionLatency,
                           SessionPracticeTool, SessionVanguardErrors, SessionPatchCurrent]
    case UnknownRecord(_) => []
  }

  predicate IsSha256(s: string) {
    |s| == 64 && forall c | c in s :: '0' <= c <= '9' || 'a' <= c <= 'f'
  }

  predicate IsAlphanumeric(c: char) {
    '0' <= c <= '9' || 'a' <= c <= 'z' || 'A' <= c <= 'Z'
  }

  predicate ValidArtifactName(name: string) {
    && 1 <= |name| <= 128 && IsAlphanumeric(name[0])
    && forall c | c in name :: IsAlphanumeric(c) || c == '.' || c == '_' || c == '-'
  }

  /** The lower case of an ASCII letter; other characters do not occur in names that reach this. */
  function Lower(c: char): char {
    if 'A' <= c <= 'Z' then (c as int - 'A' as int + 'a' as int) as char else c
  }

  function InLowerCase(name: string): string {
    seq(|name|, i requires 0 <= i < |name| => Lower(name[i]))
  }

  predicate ValidArtifacts(artifacts: seq<Artifact>) {
    && 1 <= |artifacts| <= 16
    && (forall a | a in artifacts :: ValidArtifactName(a.name) && a.mediaTypeValid && IsSha256(a.digest) && 0 < a.size <= MAX_ARTIFACT)
    && (forall i, j :: 0 <= i < j < |artifacts| ==> artifacts[i].name != artifacts[j].name)
  }

  predicate ValidAttestation(a: Attestation) {
    match a.level
    case SelfAttested => !a.reviewerNamed && a.reviewedAt.Blank? && a.artifacts == []
    case LabObserved => a.reviewerNamed && a.reviewedAt.Stamp? && ValidArtifacts(a.artifacts)
    case IndependentReview => a.reviewerNamed && a.reviewedAt.Stamp? && ValidArtifacts(a.artifacts)
    case UnknownLevel(_) => false
  }

  predicate ValidCheck(c: Check) {
    && c.textsValid && !c.status.UnknownStatus?
    && if c.status.Unverified? then c.observedAt.Blank? && c.artifacts == []
       else c.observedAt.Stamp? && ValidArtifacts(c.artifacts)
  }

  predicate ValidChecks(checks: seq<Check>, required: seq<CheckId>) {
    && |checks| == |required|
    && (forall c | c in checks :: c.id in required && ValidCheck(c))
    && (forall i, j :: 0 <= i < j < |checks| ==> checks[i].id != checks[j].id)
  }

  /** Reviews and observations lie inside the validity interval, and no observation follows the review. */
  predicate ValidTimes(r: Record)
    requires r.created.Stamp? && r.expires.Stamp? && ValidAttestation(r.attestation)
    requires forall c | c in r.checks :: ValidCheck(c)
  {
    var start, end := r.created.instant, r.expires.instant;
    && (r.attestation.level != SelfAttested ==> start <= r.attestation.reviewedAt.instant < end)
    && forall c | c in r.checks && c.observedAt.Stamp? ::
         && start <= c.observedAt.instant < end
         && (r.attestation.level != SelfAttested ==> c.observedAt.instant <= r.attestation.reviewedAt.instant)
  }

  predicate ValidMeasurements(kind: RecordType, ms: seq<Measurement>) {
    && |ms| <= 64
    && (forall i, j :: 0 <= i < j < |ms| ==> ms[i].id != ms[j].id)
    && (forall m | m in ms :: 0.0 <= m.value
                              && (m.id == DroppedFrames ==> m.value <= 100.0)
                              && (m.id == SessionDuration ==> m.value <= 28800.0)
                              && (m.id == AverageFrameRate ==> m.value <= 240.0))
    && (kind == SessionRecord ==> forall id | id in REQUIRED_METRICS :: exists m :: m in ms && m.id == id && m.unitRight)
  }

  const REQUIRED_METRICS: seq<Metric> := [SessionDuration, AverageFrameRate, EncodeLatency, NetworkLatency,
                                          DecodeLatency, EndToEndLatency, DroppedFrames]

  /** Seconds of a capture, as an exact real number. */
  function Seconds(from: Instant, to: Instant): real {
    (to - from) as real / SECOND as real
  }

  function Ceiling(x: real): int {
    if x.Floor as real == x then x.Floor else x.Floor + 1
  }

  function Value(ms: seq<Measurement>, id: Metric): real {
    if ms == [] then 0.0 else if ms[0].id == id then ms[0].value else Value(ms[1..], id)
  }

  predicate ValidMethodology(r: Record)
    requires r.created.Stamp? && r.expires.Stamp? && ValidAttestation(r.attestation) && r.methodology.Some?
  {
    var m := r.methodology.value;
    && m.versionKnown
    && if m.started.Blank? then m.ended.Blank? && m.samples == 0 && m.othersBlank else
         && m.started.Stamp? && m.ended.Stamp?
         && r.created.instant <= m.started.instant < m.ended.instant < r.expires.instant
         && var duration := Seconds(m.started.instant, m.ended.instant);
         && duration <= MAX_SESSION_SECONDS as real
         && 1 <= m.samples <= MAX_SAMPLES && Ceiling(duration) <= m.samples <= Ceiling(duration * 1000.0)
         && m.collectorValid && IsSha256(m.captureDigest)
         && (r.attestation.level != SelfAttested ==> m.ended.instant <= r.attestation.reviewedAt.instant)
         && (exists c, a :: c in r.checks && c.id == SessionLatency && a in c.artifacts && a.digest == m.captureDigest)
         && -0.001 <= Value(r.measurements, SessionDuration) - duration <= 0.001
  }

  /** Every artifact a record declares: those of the attestation, then those of the checks. */
  function Declared(r: Record): seq<Artifact> {
    r.attestation.artifacts + CheckArtifacts(r.checks)
  }

  function CheckArtifacts(checks: seq<Check>): seq<Artifact> {
    if checks == [] then [] else checks[0].artifacts + CheckArtifacts(checks[1..])
  }

  function TotalSize(artifacts: seq<Artifact>): int {
    if artifacts == [] then 0 else TotalSize(artifacts[..|artifacts| - 1]) + artifacts[|artifacts| - 1].size
  }

  predicate PortableNamesDiffer(artifacts: seq<Artifact>) {
    forall i, j :: 0 <= i < j < |artifacts| ==> InLowerCase(artifacts[i].name) != InLowerCase(artifacts[j].name)
  }

  /** All artifacts of a record together: names distinct whatever the case, and within the size of one bundle. */
  predicate ValidBundle(artifacts: seq<Artifact>) {
    PortableNamesDiffer(artifacts) && TotalSize(artifacts) <= MAX_BUNDLE
  }

  predicate ValidSubject(r: Record, supported: (string, string) -> bool) {
    && r.subjectRoleMatches
    && match r.kind
       case HostRecord =>
         if r.route == PhysicalWindows then r.subject == Subject("windows", "amd64")
         else r.subject == Subject("macos", "amd64") || r.subject == Subject("macos", "arm64")
       case _ => supported(r.subject.platform, r.subject.architecture)
  }

  predicate ValidProfile(p: Profile) {
    && 0 <= p.width <= 8192 && 0 <= p.height <= 8192 && 0.0 <= p.frameRate <= 240.0
    && !p.codec.UnknownMedium? && !p.transport.UnknownMedium?
  }

  predicate ValidRecord(r: Record, supported: (string, string) -> bool) {
    && !r.kind.UnknownRecord? && r.textsValid && !r.route.UnknownRoute? && r.profileKnown && IsSha256(r.manifestDigest)
    && r.created.Stamp? && r.expires.Stamp?
    && r.created.instant < r.expires.instant <= r.created.instant + MAX_VALIDITY
    && r.manifestAsOf.Some? && r.manifestAsOf.value <= DayOf(r.created.instant)
    && ValidSubject(r, supported) && ValidAttestation(r.attestation)
    && (r.kind == SessionRecord <==> r.bindings.Some?)
    && (r.kind == SessionRecord <==> r.streamProfile.Some?)
    && (r.kind == SessionRecord <==> r.methodology.Some?)
    && (r.bindings.Some? ==>
          && (r.bindings.value.host == "" || IsSha256(r.bindings.value.host))
          && (r.bindings.value.client == "" || IsSha256(r.bindings.value.client)))
    && (r.streamProfile.Some? ==> ValidProfile(r.streamProfile.value))
    && ValidChecks(r.checks, RequiredChecks(r.kind))
    && ValidTimes(r)
    && ValidMeasurements(r.kind, r.measurements)
    && (r.methodology.Some? ==> ValidMethodology(r))
    && ValidBundle(Declared(r))
  }

  function CheckIds(checks: seq<Check>): seq<CheckId> {
    seq(|checks|, i requires 0 <= i < |checks| => checks[i].id)
  }

  lemma RequiredChecksDiffer(kind: RecordType)
    ensures forall i, j :: 0 <= i < j < |RequiredChecks(kind)| ==> RequiredChecks(kind)[i] != RequiredChecks(kind)[j]
  {
  }

  /** The count test and the duplicate test together force the exact required inventory. */
  lemma ChecksAreExactlyRequired(kind: RecordType, checks: seq<Check>)
    requires ValidChecks(checks, RequiredChecks(kind))
    ensures forall id | id in RequiredChecks(kind) :: exists c :: c in checks && c.id == id
  {
    var required, ids := RequiredChecks(kind), CheckIds(checks);
    RequiredChecksDiffer(kind);
    hide RequiredChecks, ValidCheck;
    DistinctSize(ids);
    DistinctSize(required);
    var present, wanted := set x | x in ids, set x | x in required;
    SubsetOfEqualSize(present, wanted);
    forall id | id in required
      ensures exists c :: c in checks && c.id == id
    {
      assert id in wanted;
      var i :| 0 <= i < |ids| && ids[i] == id;
      assert checks[i] in checks;
    }
  }

  // ---------------------------------------------------------------- evaluating one record

  /** The compiled-in authority: a valid manifest of the compiled date, and its canonical digest. */
  datatype Authority = Authority(manifest: Compat.Manifest, digest: string)

  /** 2026-09-23 as a day number. */
  const AUTHORITATIVE_AS_OF: int := 20719

  predicate ValidAuthority(a: Authority) {
    Compat.ValidManifest(a.manifest) && a.manifest.asOf == Some(AUTHORITATIVE_AS_OF)
  }

  /** The opaque result of verifying an artifact bundle. */
  datatype Token = Token(verified: bool, recordDigest: string)

  datatype EvaluationState = Complete | ClaimsComplete | Pending | Expired

  datatype Reason = CreatedInFuture | WrongManifestDate | WrongManifestDigest | ManifestNotFresh | SelfAttestedOnly
                  | ReviewInFuture | Unbound | ObservationInFuture(check: CheckId) | NotPassed(check: CheckId)
                  | CaptureUnverified | CaptureStartInFuture | CaptureEndInFuture | ProfileBelowMinimum
                  | MeasurementOutOfRange

  predicate MeetsProfile(p: Profile) {
    p.width >= 1920 && p.height >= 1080 && p.frameRate >= 60.0 && !p.codec.UnverifiedMedium? && !p.transport.UnverifiedMedium?
  }

  predicate MeetsMeasurements(ms: seq<Measurement>, p: Profile) {
    var end := Value(ms, EndToEndLatency);
    && 1800.0 <= Value(ms, SessionDuration) <= 28800.0
    && 55.0 <= Value(ms, AverageFrameRate) <= 240.0
    && 0.0 < Value(ms, EncodeLatency) <= 30.0 && 0.0 < Value(ms, NetworkLatency) <= 80.0
    && 0.0 < Value(ms, DecodeLatency) <= 30.0 && 0.0 < end <= 150.0
    && 0.0 <= Value(ms, DroppedFrames) <= 1.0
    && Value(ms, EncodeLatency) <= end && Value(ms, NetworkLatency) <= end && Value(ms, DecodeLatency) <= end
    && (p.frameRate > 0.0 ==> Value(ms, AverageFrameRate) >= p.frameRate * 0.9)
  }

  /** The part of completeness that does not depend on the time of evaluation. */
  predicate TimelesslyComplete(r: Record, a: Authority) {
    && r.manifestAsOf == Some(AUTHORITATIVE_AS_OF) && r.manifestDigest == a.digest
    && r.attestation.level != SelfAttested
    && (forall c | c in r.checks :: c.status == Pass)
    && (r.kind == SessionRecord ==>
          && r.bindings.Some? && r.bindings.value.host != "" && r.bindings.value.client != ""
          && r.methodology.Some? && !r.methodology.value.started.Blank?
          && r.streamProfile.Some? && MeetsProfile(r.streamProfile.value)
          && MeetsMeasurements(r.measurements, r.streamProfile.value))
  }

  /** Nothing the record claims lies after `now`. */
  predicate NothingInFuture(r: Record, supported: (string, string) -> bool, now: Instant)
    requires ValidRecord(r, supported)
  {
    && r.created.instant <= now
    && (r.attestation.level != SelfAttested ==> r.attestation.reviewedAt.instant <= now)
    && (forall c | c in r.checks && c.observedAt.Stamp? :: c.observedAt.instant <= now)
    && (r.methodology.Some? && r.methodology.value.started.Stamp? ==>
          r.methodology.value.started.instant <= now && r.methodology.value.ended.instant <= now)
  }

  predicate CompleteNow(r: Record, a: Authority, supported: (string, string) -> bool, now: Instant)
    requires ValidRecord(r, supported) && ValidAuthority(a)
  {
    && NothingInFuture(r, supported, now) && TimelesslyComplete(r, a)
    && Compat.StateOn(a.manifest, DayOf(now)) == Compat.Fresh
  }

  /** The outcome of evaluating a valid record: expired, complete, or pending with reasons. */
  function StateAt(r: Record, a: Authority, supported: (string, string) -> bool, verified: bool, now: Instant)
    : EvaluationState
    requires ValidRecord(r, supported) && ValidAuthority(a)
  {
    if r.expires.instant <= now then Expired
    else if CompleteNow(r, a, supported, now) then if verified then Complete else ClaimsComplete
    else Pending
  }

  /** One pass over the checks, collecting what is in the future and what did not pass. */
  method CheckReasons(checks: seq<Check>, now: Instant) returns (reasons: seq<Reason>)
    requires forall c | c in checks :: ValidCheck(c)
    ensures reasons == [] <==>
            && (forall c | c in checks && c.observedAt.Stamp? :: c.observedAt.instant <= now)
            && (forall c | c in checks :: c.status == Pass)
  {
    reasons := [];
    for i := 0 to |checks|
      invariant reasons == [] <==>
                && (forall k :: 0 <= k < i && checks[k].observedAt.Stamp? ==> checks[k].observedAt.instant <= now)
                && (forall k :: 0 <= k < i ==> checks[k].status == Pass)
    {
      var c := checks[i];
      assert c in checks;
      if c.status != Unverified && c.observedAt.instant > now {
        reasons := reasons + [ObservationInFuture(c.id)];
      }
      if c.status != Pass {
        reasons := reasons + [NotPassed(c.id)];
      }
    }
  }

  method SessionReasons(r: Record, supported: (string, string) -> bool, now: Instant) returns (reasons: seq<Reason>)
    requires ValidRecord(r, supported) && r.kind == SessionRecord
    ensures reasons == [] <==>
            && r.methodology.value.started.Stamp?
            && r.methodology.value.started.instant <= now && r.methodology.value.ended.instant <= now
            && MeetsProfile(r.streamProfile.value) && MeetsMeasurements(r.measurements, r.streamProfile.value)
  {
    hide MeetsMeasurements, ValidChecks, ValidMeasurements, ValidTimes;
    reasons := [];
    var m := r.methodology.value;
    if m.started.Blank? {
      reasons := reasons + [CaptureUnverified];
    } else {
      if m.started.instant > now {
        reasons := reasons + [CaptureStartInFuture];
      }
      if m.ended.instant > now {
        reasons := reasons + [CaptureEndInFuture];
      }
    }
    if !MeetsProfile(r.streamProfile.value) {
      reasons := reasons + [ProfileBelowMinimum];
    }
    if !MeetsMeasurements(r.measurements, r.streamProfile.value) {
      reasons := reasons + [MeasurementOutOfRange];
    }
  }

  /** Everything that keeps a record from being complete at `now`, in the order of the code. */
  method RecordReasons(r: Record, a: Authority, supported: (string, string) -> bool, now: Instant)
    returns (reasons: seq<Reason>)
    requires ValidAuthority(a) && ValidRecord(r, supported) && now != ZERO_TIME
    ensures reasons == [] <==> CompleteNow(r, a, supported, now)
  {
    hide ValidRecord, MeetsMeasurements, MeetsProfile, Compat.ValidManifest, ValidCheck;
    ShapeOfRecord(r, supported);
    reasons := [];
    if r.created.instant > now {
      reasons := reasons + [CreatedInFuture];
    }
    if r.manifestAsOf != Some(AUTHORITATIVE_AS_OF) {
      reasons := reasons + [WrongManifestDate];
    }
    if r.manifestDigest != a.digest {
      reasons := reasons + [WrongManifestDigest];
    }
    var freshness := Compat.FreshnessAt(a.manifest, now);
    if freshness.value.state != Compat.Fresh {
      reasons := reasons + [ManifestNotFresh];
    }
    if r.attestation.level == SelfAttested {
      reasons := reasons + [SelfAttestedOnly];
    } else if r.attestation.reviewedAt.instant > now {
      reasons := reasons + [ReviewInFuture];
    }
    if r.kind == SessionRecord && (r.bindings.value.host == "" || r.bindings.value.client == "") {
      reasons := reasons + [Unbound];
    }
    var checkReasons := CheckReasons(r.checks, now);
    reasons := reasons + checkReasons;
    if r.kind == SessionRecord {
      var sessionReasons := SessionReasons(r, supported, now);
      reasons := reasons + sessionReasons;
    }
  }

  /** Evaluation of one record. An invalid record, a token of another record or a missing time is an error. */
  method EvaluateAt(r: Record, a: Authority, supported: (string, string) -> bool, token: Option<Token>,
                    digest: Record -> string, now: Instant) returns (state: Option<EvaluationState>)
    requires ValidAuthority(a)
    ensures state.Some? <==>
            && ValidRecord(r, supported) && now != ZERO_TIME
            && (token.Some? ==> token.value == Token(true, digest(r)))
    ensures state.Some? ==> state.value == StateAt(r, a, supported, token.Some?, now)
  {
    hide NothingInFuture, TimelesslyComplete, ValidAuthority;
    if !ValidRecord(r, supported) {
      return None;
    }
    if token.Some? && (!token.value.verified || token.value.recordDigest != digest(r)) {
      return None;
    }
    if now == ZERO_TIME {
      return None;
    }
    if now >= r.expires.instant {
      return Some(Expired);
    }
    var reasons := RecordReasons(r, a, supported, now);
    if reasons != [] {
      return Some(Pending);
    }
    return Some(if token.Some? then Complete else ClaimsComplete);
  }

  lemma ShapeOfRecord(r: Record, supported: (string, string) -> bool)
    requires ValidRecord(r, supported)
    ensures r.created.Stamp? && r.expires.Stamp?
    ensures r.attestation.level != SelfAttested ==> r.attestation.reviewedAt.Stamp?
    ensures r.kind == SessionRecord <==> r.bindings.Some?
    ensures r.kind == SessionRecord <==> r.streamProfile.Some?
    ensures r.kind == SessionRecord <==> r.methodology.Some?
    ensures forall c | c in r.checks :: ValidCheck(c)
    ensures r.methodology.Some? ==> (r.methodology.value.started.Stamp? <==> !r.methodology.value.started.Blank?)
    ensures r.methodology.Some? && r.methodology.value.started.Stamp? ==> r.methodology.value.ended.Stamp?
  {
  }
}

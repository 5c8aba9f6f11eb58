/**
 * The compatibility manifest: its validation, its freshness on a calendar day, and the launch policy in which an
 * external document can only restrict the embedded authority.
 */
module Compat {
  import opened Prelude
  import opened Calendar

  datatype BackendId = NativeLinux | NativeBsd | Wine | Proton | DockurQemu | Bhyve
                     | PhysicalWindowsRemote | PhysicalMacOsRemote | HardwareKvmRemote | DualBoot
                     | UnknownBackend(text: string)
  datatype Platform = Linux | FreeBsd | OpenBsd | NetBsd | DragonFlyBsd | UnknownPlatform(text: string)
  datatype Architecture = Amd64 | Arm64 | UnknownArchitecture(text: string)
  datatype Kind = Native | Translation | VirtualMachine | RemotePhysicalWindows | RemotePhysicalMacOs
                | RemoteHardwareKvm | DualBootKind | UnknownKind(text: string)
  datatype LaunchMode = Local | Remote | Handoff | UnknownMode(text: string)
  datatype State = Blocked | HandoffOnly | Supported | UnknownState(text: string)
  datatype Decision = Deny | Allow | UnknownDecision(text: string)
  datatype Authorization = NoAuthorization | Unverified | Official | UnknownAuthorization(text: string)

  /** A date is the day it denotes, or `None` when its text is not a date. Texts with no further role are one flag. */
  datatype Source = Source(id: string, textsValid: bool, url: string, checkedAt: Option<int>,
                           publishedAt: Option<Option<int>>)

  datatype Backend = Backend(id: BackendId, kind: Kind, mode: LaunchMode, state: State, verdict: Decision,
                             authorization: Authorization, platforms: seq<Platform>, architectures: seq<Architecture>,
                             reasonCode: string, textsValid: bool, sourceIds: seq<string>)

  datatype Manifest = Manifest(textsValid: bool, asOf: Option<int>, defaultVerdict: Decision, maxAgeDays: int,
                               requireOfficial: bool, sources: seq<Source>, backends: seq<Backend>)

  const KNOWN_BACKENDS: seq<BackendId> := [NativeLinux, NativeBsd, Wine, Proton, DockurQemu, Bhyve,
                                           PhysicalWindowsRemote, PhysicalMacOsRemote, HardwareKvmRemote, DualBoot]
  const ALL_PLATFORMS: seq<Platform> := [Linux, FreeBsd, OpenBsd, NetBsd, DragonFlyBsd]
  const BSD_PLATFORMS: seq<Platform> := [FreeBsd, OpenBsd, NetBsd, DragonFlyBsd]
  const ALL_ARCHITECTURES: seq<Architecture> := [Amd64, Arm64]

  // ---------------------------------------------------------------- validation

  predicate Distinct<T(==)>(xs: seq<T>) {
    forall i, j :: 0 <= i < j < |xs| ==> xs[i] != xs[j]
  }

  method NoDuplicates<T(==)>(xs: seq<T>) returns (ok: bool)
    ensures ok <==> Distinct(xs)
  {
    var seen: set<T> := {};
    for i := 0 to |xs|
      invariant Distinct(xs[..i])
      invariant forall x :: x in seen <==> x in xs[..i]
    {
      if xs[i] in seen {
        return false;
      }
      seen := seen + {xs[i]};
    }
    assert xs[..|xs|] == xs;
    ok := true;
  }

  /** The membership test used for platform and architecture lists. */
  method SameSet<T(==)>(got: seq<T>, want: seq<T>) returns (ok: bool)
    ensures ok <==> |got| == |want| && forall x | x in want :: x in got
  {
    if |got| != |want| {
      return false;
    }
    for i := 0 to |want|
      invariant forall k :: 0 <= k < i ==> want[k] in got
    {
      if want[i] !in got {
        return false;
      }
    }
    ok := true;
  }

  /** For lists without repetition the one-sided test is equality of sets. */
  lemma SameSetIsEquality<T>(got: seq<T>, want: seq<T>)
    requires Distinct(got) && Distinct(want) && |got| == |want|
    requires forall x | x in want :: x in got
    ensures (set x | x in got) == (set x | x in want)
  {
    DistinctSize(got);
    DistinctSize(want);
    SubsetOfEqualSize(set x | x in want, set x | x in got);
  }

  predicate ValidSource(s: Source, asOf: int) {
    && s.textsValid
    && s.checkedAt.Some? && s.checkedAt.value <= asOf
    && (s.publishedAt.Some? ==> s.publishedAt.value.Some? && s.publishedAt.value.value <= s.checkedAt.value)
  }

  function SourceIds(sources: seq<Source>): seq<string> {
    seq(|sources|, i requires 0 <= i < |sources| => sources[i].id)
  }

  function BackendIds(backends: seq<Backend>): seq<BackendId> {
    seq(|backends|, i requires 0 <= i < |backends| => backends[i].id)
  }

  /** What each backend identity prescribes: kind, mode and platforms. */
  function Identity(id: BackendId): Option<(Kind, LaunchMode, seq<Platform>)> {
    match id
    case NativeLinux => Some((Native, Local, [Linux]))
    case NativeBsd => Some((Native, Local, BSD_PLATFORMS))
    case Wine => Some((Translation, Local, ALL_PLATFORMS))
    case Proton => Some((Translation, Local, [Linux]))
    case DockurQemu => Some((VirtualMachine, Local, [Linux]))
    case Bhyve => Some((VirtualMachine, Local, [FreeBsd]))
    case PhysicalWindowsRemote => Some((RemotePhysicalWindows, Remote, ALL_PLATFORMS))
    case PhysicalMacOsRemote => Some((RemotePhysicalMacOs, Remote, ALL_PLATFORMS))
    case HardwareKvmRemote => Some((RemoteHardwareKvm, Remote, ALL_PLATFORMS))
    case DualBoot => Some((DualBootKind, Handoff, ALL_PLATFORMS))
    case UnknownBackend(_) => None
  }

  predicate LockedDown(b: Backend) {
    b.state == HandoffOnly && b.verdict == Deny && b.authorization == Unverified
  }

  predicate ValidIdentity(b: Backend) {
    var identity := Identity(b.id);
    && identity.Some?
    && b.kind == identity.value.0 && b.mode == identity.value.1
    && (set p | p in b.platforms) == (set p | p in identity.value.2)
    && (set a | a in b.architectures) == (set a | a in ALL_ARCHITECTURES)
    && (b.id == PhysicalMacOsRemote || b.id == HardwareKvmRemote ==> LockedDown(b))
  }

  predicate ValidBackend(b: Backend, sourceIds: seq<string>) {
    && b.textsValid && !b.state.UnknownState? && !b.verdict.UnknownDecision? && !b.authorization.UnknownAuthorization?
    && Distinct(b.platforms) && Distinct(b.architectures) && Distinct(b.sourceIds)
    && 0 < |b.sourceIds| <= 64 && (forall id | id in b.sourceIds :: id in sourceIds)
    && (b.verdict == Allow ==> b.state == Supported && b.authorization == Official)
    && !(b.state == HandoffOnly && b.mode == Local)
    && ValidIdentity(b)
  }

  predicate ValidManifest(m: Manifest) {
    && m.textsValid && m.asOf.Some? && m.defaultVerdict == Deny && 1 <= m.maxAgeDays <= 365 && m.requireOfficial
    && 0 < |m.sources| <= 512
    && Distinct(SourceIds(m.sources)) && (forall s | s in m.sources :: ValidSource(s, m.asOf.value))
    && |m.backends| == |KNOWN_BACKENDS| && Distinct(BackendIds(m.backends))
    && (forall b | b in m.backends :: ValidBackend(b, SourceIds(m.sources)))
  }

  lemma {:induction false} SequenceSetsEqual<T>(a: seq<T>, b: seq<T>)
    requires (set x | x in a) == (set x | x in b) && Distinct(a) && Distinct(b)
    ensures |a| == |b| && forall x | x in b :: x in a
  {
    DistinctSize(a);
    DistinctSize(b);
    var inA, inB := set x | x in a, set x | x in b;
    assert inA == inB;
    forall x | x in b
      ensures x in a
    {
      assert x in inB;
    }
  }

  method ValidateIdentity(b: Backend) returns (ok: bool)
    requires Distinct(b.platforms) && Distinct(b.architectures)
    ensures ok <==> ValidIdentity(b)
  {
    var identity := Identity(b.id);
    if identity.None? || b.kind != identity.value.0 || b.mode != identity.value.1 {
      return false;
    }
    assert Distinct(identity.value.2) && Distinct(ALL_ARCHITECTURES);
    var samePlatforms := SameSet(b.platforms, identity.value.2);
    if !samePlatforms {
      if ValidIdentity(b) {
        SequenceSetsEqual(b.platforms, identity.value.2);
      }
      return false;
    }
    SameSetIsEquality(b.platforms, identity.value.2);
    var sameArchitectures := SameSet(b.architectures, ALL_ARCHITECTURES);
    if !sameArchitectures {
      if ValidIdentity(b) {
        SequenceSetsEqual(b.architectures, ALL_ARCHITECTURES);
      }
      return false;
    }
    SameSetIsEquality(b.architectures, ALL_ARCHITECTURES);
    if b.id == PhysicalMacOsRemote && (b.state != HandoffOnly || b.verdict != Deny || b.authorization != Unverified) {
      return false;
    }
    if b.id == HardwareKvmRemote && (b.state != HandoffOnly || b.verdict != Deny || b.authorization != Unverified) {
      return false;
    }
    return true;
  }

  method ValidateBackend(b: Backend, sourceIds: seq<string>) returns (ok: bool)
    ensures ok <==> ValidBackend(b, sourceIds)
  {
    if !b.textsValid || b.state.UnknownState? || b.verdict.UnknownDecision? || b.authorization.UnknownAuthorization? {
      return false;
    }
    var platforms := NoDuplicates(b.platforms);
    var architectures := NoDuplicates(b.architectures);
    var references := NoDuplicates(b.sourceIds);
    if !platforms || !architectures || !references || |b.sourceIds| == 0 || |b.sourceIds| > 64 {
      return false;
    }
    for i := 0 to |b.sourceIds|
      invariant forall k :: 0 <= k < i ==> b.sourceIds[k] in sourceIds
    {
      if b.sourceIds[i] !in sourceIds {
        return false;
      }
    }
    if b.state != Supported && b.verdict != Deny {
      return false;
    }
    if b.authorization != Official && b.verdict != Deny {
      return false;
    }
    if b.state == HandoffOnly && b.mode == Local {
      return false;
    }
    ok := ValidateIdentity(b);
  }

  lemma KnownIdentity(id: BackendId)
    ensures Identity(id).Some? <==> id in KNOWN_BACKENDS
  {
  }

  /** Ten distinct valid backends are the ten known ones: nothing can be missing. */
  lemma NoBackendMissing(m: Manifest)
    requires ValidManifest(m)
    ensures forall id | id in KNOWN_BACKENDS :: id in BackendIds(m.backends)
  {
    var ids := BackendIds(m.backends);
    forall id | id in ids
      ensures id in KNOWN_BACKENDS
    {
      var i :| 0 <= i < |ids| && ids[i] == id;
      assert ValidBackend(m.backends[i], SourceIds(m.sources));
      KnownIdentity(id);
    }
    hide ValidManifest;
    assert Distinct(KNOWN_BACKENDS);
    DistinctSize(ids);
    DistinctSize(KNOWN_BACKENDS);
    var present, known := set x | x in ids, set x | x in KNOWN_BACKENDS;
    SubsetOfEqualSize(present, known);
    forall id | id in KNOWN_BACKENDS
      ensures id in ids
    {
      assert id in known;
    }
  }

  /** Validation as the code does it, section by section; its last loop, for missing backends, can never reject. */
  method Validate(m: Manifest) returns (ok: bool)
    ensures ok <==> ValidManifest(m)
  {
    hide ValidIdentity;
    if !m.textsValid || m.asOf.None? || m.defaultVerdict != Deny || m.maxAgeDays < 1 || m.maxAgeDays > 365
       || !m.requireOfficial || |m.sources| == 0 || |m.sources| > 512
    {
      return false;
    }
    var ids := SourceIds(m.sources);
    var distinct := NoDuplicates(ids);
    if !distinct {
      return false;
    }
    for i := 0 to |m.sources|
      invariant forall k :: 0 <= k < i ==> ValidSource(m.sources[k], m.asOf.value)
    {
      if !ValidSource(m.sources[i], m.asOf.value) {
        return false;
      }
    }
    if |m.backends| != |KNOWN_BACKENDS| {
      return false;
    }
    distinct := NoDuplicates(BackendIds(m.backends));
    if !distinct {
      return false;
    }
    for i := 0 to |m.backends|
      invariant forall k :: 0 <= k < i ==> ValidBackend(m.backends[k], ids)
    {
      var valid := ValidateBackend(m.backends[i], ids);
      if !valid {
        return false;
      }
    }
    NoBackendMissing(m);
    for i := 0 to |KNOWN_BACKENDS| {
      if KNOWN_BACKENDS[i] !in BackendIds(m.backends) {
        assert false;
      }
    }
    ok := true;
  }

  // ---------------------------------------------------------------- freshness

  datatype FreshnessState = Future | Fresh | Stale

  datatype Freshness = Freshness(state: FreshnessState, asOf: int, oldest: int, evaluated: int, expires: int, ageDays: int)

  ghost predicate IsOldest(m: Manifest, oldest: int)
    requires m.asOf.Some?
  {
    && oldest <= m.asOf.value && (forall s | s in m.sources && s.checkedAt.Some? :: oldest <= s.checkedAt.value)
    && (oldest == m.asOf.value || exists s :: s in m.sources && s.checkedAt == Some(oldest))
  }

  function Earliest(sources: seq<Source>, start: int): (r: int)
    ensures r <= start
    ensures forall s | s in sources && s.checkedAt.Some? :: r <= s.checkedAt.value
    ensures r == start || exists s :: s in sources && s.checkedAt == Some(r)
  {
    if sources == [] then start else
      var before := Earliest(sources[..|sources| - 1], start);
      var last := sources[|sources| - 1].checkedAt;
      if last.Some? && last.value < before then last.value else before
  }

  function StateOn(m: Manifest, day: int): FreshnessState
    requires ValidManifest(m)
  {
    var oldest := Earliest(m.sources, m.asOf.value);
    if day < m.asOf.value then Future else if day > oldest + m.maxAgeDays then Stale else Fresh
  }

  method OldestCheck(sources: seq<Source>, asOf: int) returns (oldest: int)
    requires forall s | s in sources :: s.checkedAt.Some?
    ensures oldest == Earliest(sources, asOf)
  {
    oldest := asOf;
    for i := 0 to |sources|
      invariant oldest == Earliest(sources[..i], asOf)
    {
      assert sources[..i + 1][..i] == sources[..i];
      assert sources[i] in sources;
      var checked := sources[i].checkedAt.value;
      if checked < oldest {
        oldest := checked;
      }
    }
    assert sources[..|sources|] == sources;
  }

  /** The freshness report, computed as the code does: earliest check, calendar age, and a second look at every source. */
  method FreshnessAt(m: Manifest, at: Instant) returns (report: Option<Freshness>)
    ensures report.Some? <==> at != ZERO_TIME && ValidManifest(m)
    ensures report.Some? ==>
              && report.value.state == StateOn(m, DayOf(at))
              && IsOldest(m, report.value.oldest) && report.value.asOf == m.asOf.value
              && report.value.evaluated == DayOf(at) && report.value.expires == report.value.oldest + m.maxAgeDays
              && report.value.ageDays == report.value.evaluated - report.value.oldest
  {
    if at == ZERO_TIME {
      return None;
    }
    var valid := Validate(m);
    if !valid {
      return None;
    }
    assert forall source | source in m.sources :: ValidSource(source, m.asOf.value);
    var oldest := OldestCheck(m.sources, m.asOf.value);
    hide ValidBackend, Distinct, Earliest;
    var evaluated := DayOf(at);
    var fields := Freshness(Future, m.asOf.value, oldest, evaluated, oldest + m.maxAgeDays, evaluated - oldest);
    if evaluated < m.asOf.value || evaluated < oldest {
      return Some(fields);
    }
    for i := 0 to |m.sources| {
      assert ValidSource(m.sources[i], m.asOf.value);
      if m.sources[i].checkedAt.value > evaluated {
        // Unreachable: a source is never checked after the manifest date, which has already passed.
        assert false;
        return Some(fields);
      }
    }
    if fields.ageDays > m.maxAgeDays {
      return Some(fields.(state := Stale));
    }
    return Some(fields.(state := Fresh));
  }

  /** Fresh exactly on the calendar days from the manifest date through the reported expiry date. */
  lemma FreshExactly(m: Manifest, at: Instant, oldest: int)
    requires ValidManifest(m) && IsOldest(m, oldest)
    ensures StateOn(m, DayOf(at)) == Fresh <==> m.asOf.value * DAY <= at < (oldest + m.maxAgeDays + 1) * DAY
    ensures StateOn(m, DayOf(at)) == Future <==> at < m.asOf.value * DAY
  {
    var earliest := Earliest(m.sources, m.asOf.value);
    assert earliest == oldest;
    DayOfMidnight(DayOf(at), at);
  }

  function Rank(s: FreshnessState): int {
    match s
    case Future => 0
    case Fresh => 1
    case Stale => 2
  }

  /** Over time freshness only moves from future to fresh to stale. */
  lemma FreshnessOnlyAges(m: Manifest, t: Instant, u: Instant)
    requires ValidManifest(m) && t <= u
    ensures Rank(StateOn(m, DayOf(t))) <= Rank(StateOn(m, DayOf(u)))
  {
    DayOfIsMonotone(t, u);
  }

  // ---------------------------------------------------------------- the launch policy

  datatype Request = Request(backend: BackendId, platform: Platform, architecture: Architecture)

  datatype Code = PolicyLocked | UnknownHostPlatform | UnknownHostArchitecture | BackendNotPresent
                | PlatformMismatch | ArchitectureMismatch | FreshnessInvalid | ManifestStale | NotYetEffective
                | BackendDenied(reason: string) | AuthorizationIncomplete | PolicyInvariantFailed
                | ExternalRestriction | Authorized

  datatype Verdict = Verdict(decision: Decision, code: Code, evidenceUrls: seq<string>)

  /** An invalid external document locks the policy; an absent one leaves it to the embedded authority alone. */
  datatype External = Absent | Invalid | Observed(manifest: Manifest)

  function FindBackend(backends: seq<Backend>, id: BackendId): (r: Option<Backend>)
    ensures r.Some? ==> r.value in backends && r.value.id == id
    ensures r.None? ==> forall b | b in backends :: b.id != id
  {
    if backends == [] then None
    else if backends[0].id == id then Some(backends[0])
    else FindBackend(backends[1..], id)
  }

  function SourceUrls(sources: seq<Source>): map<string, string> {
    if sources == [] then map[] else
      SourceUrls(sources[..|sources| - 1])[sources[|sources| - 1].id := sources[|sources| - 1].url]
  }

  function EvidenceUrls(m: Manifest, ids: seq<string>): seq<string> {
    if ids == [] then [] else
      var id := ids[|ids| - 1];
      EvidenceUrls(m, ids[..|ids| - 1]) + if id in SourceUrls(m.sources) then [SourceUrls(m.sources)[id]] else []
  }

  function Denial(m: Manifest, id: BackendId, code: Code): Verdict {
    var b := FindBackend(m.backends, id);
    Verdict(Deny, code, if b.Some? then EvidenceUrls(m, b.value.sourceIds) else [])
  }

  predicate ExternalConfirms(m: Manifest, id: BackendId, at: Instant)
    requires ValidManifest(m)
  {
    var b := FindBackend(m.backends, id);
    && at != ZERO_TIME && StateOn(m, DayOf(at)) == Fresh
    && b.Some? && b.value.verdict == Allow && b.value.state == Supported && b.value.authorization == Official
  }

  /** The decision, gate by gate. Parsed manifests are valid, which is what `requires` records. */
  function Evaluate(m: Manifest, external: External, request: Request, at: Instant): Verdict
    requires ValidManifest(m) && (external.Observed? ==> ValidManifest(external.manifest))
  {
    var backend := FindBackend(m.backends, request.backend);
    if external.Invalid? then Verdict(Deny, PolicyLocked, [])
    else if request.platform.UnknownPlatform? then Denial(m, request.backend, UnknownHostPlatform)
    else if request.architecture.UnknownArchitecture? then Denial(m, request.backend, UnknownHostArchitecture)
    else if backend.None? then Denial(m, request.backend, BackendNotPresent)
    else if request.platform !in backend.value.platforms then Denial(m, request.backend, PlatformMismatch)
    else if request.architecture !in backend.value.architectures then Denial(m, request.backend, ArchitectureMismatch)
    else if at == ZERO_TIME then Denial(m, request.backend, FreshnessInvalid)
    else if StateOn(m, DayOf(at)) == Stale then Denial(m, request.backend, ManifestStale)
    else if StateOn(m, DayOf(at)) == Future then Denial(m, request.backend, NotYetEffective)
    else if backend.value.verdict != Allow then Denial(m, request.backend, BackendDenied(backend.value.reasonCode))
    else if backend.value.state != Supported || backend.value.authorization != Official then
      Denial(m, request.backend, AuthorizationIncomplete)
    else if m.defaultVerdict != Deny || !m.requireOfficial then Denial(m, request.backend, PolicyInvariantFailed)
    else if external.Observed? && !ExternalConfirms(external.manifest, request.backend, at) then
      Denial(m, request.backend, ExternalRestriction)
    else Verdict(Allow, Authorized, EvidenceUrls(m, backend.value.sourceIds))
  }

  /**
   * An external document only restricts. With it the verdict is either the embedded authority's own verdict, word for
   * word and with the authority's own evidence, or a denial; and it can change the verdict only from an allow.
   */
  lemma ExternalOnlyRestricts(m: Manifest, external: External, request: Request, at: Instant)
    requires ValidManifest(m) && (external.Observed? ==> ValidManifest(external.manifest))
    ensures Evaluate(m, external, request, at).decision == Allow ==>
              Evaluate(m, Absent, request, at) == Evaluate(m, external, request, at)
    ensures !external.Invalid? && Evaluate(m, external, request, at) != Evaluate(m, Absent, request, at) ==>
              && Evaluate(m, Absent, request, at).decision == Allow
              && Evaluate(m, external, request, at) ==
                 Evaluate(m, Absent, request, at).(decision := Deny, code := ExternalRestriction)
  {
  }

  /** Exactly when a launch is allowed: a fresh authority that officially supports the route, and no restriction. */
  lemma AllowedExactly(m: Manifest, external: External, request: Request, at: Instant, b: Backend)
    requires ValidManifest(m) && (external.Observed? ==> ValidManifest(external.manifest))
    requires b in m.backends && b.id == request.backend
    ensures Evaluate(m, external, request, at).decision == Allow <==>
            && !external.Invalid? && at != ZERO_TIME && StateOn(m, DayOf(at)) == Fresh
            && request.platform in b.platforms && request.architecture in b.architectures && b.verdict == Allow
            && (external.Observed? ==> ExternalConfirms(external.manifest, request.backend, at))
  {
    var found := FindBackend(m.backends, request.backend).value;
    BackendIsUnique(m, b, found);
    assert ValidBackend(b, SourceIds(m.sources));
    KnownHostsOnly(b);
  }

  lemma KnownHostsOnly(b: Backend)
    requires ValidIdentity(b)
    ensures forall p | p in b.platforms :: !p.UnknownPlatform?
    ensures forall a | a in b.architectures :: !a.UnknownArchitecture?
  {
    var platforms, wanted := set p | p in b.platforms, set p | p in Identity(b.id).value.2;
    assert platforms == wanted;
    forall p | p in b.platforms
      ensures !p.UnknownPlatform?
    {
      assert p in platforms;
    }
    var architectures, all := set a | a in b.architectures, set a | a in ALL_ARCHITECTURES;
    assert architectures == all;
    forall a | a in b.architectures
      ensures !a.UnknownArchitecture?
    {
      assert a in architectures;
    }
  }

  lemma BackendIsUnique(m: Manifest, a: Backend, b: Backend)
    requires ValidManifest(m) && a in m.backends && b in m.backends && a.id == b.id
    ensures a == b
  {
    var i :| 0 <= i < |m.backends| && m.backends[i] == a;
    var j :| 0 <= j < |m.backends| && m.backends[j] == b;
    assert BackendIds(m.backends)[i] == BackendIds(m.backends)[j];
  }

  /** The physical macOS and hardware KVM routes are denied under every valid authority, at every time. */
  lemma RemoteRoutesAreDenied(m: Manifest, external: External, request: Request, at: Instant)
    requires ValidManifest(m) && (external.Observed? ==> ValidManifest(external.manifest))
    requires request.backend == PhysicalMacOsRemote || request.backend == HardwareKvmRemote
    ensures Evaluate(m, external, request, at).decision == Deny
  {
    var found := FindBackend(m.backends, request.backend);
    if found.Some? {
      assert ValidBackend(found.value, SourceIds(m.sources));
    }
  }

  /** An unknown platform, architecture or backend is denied under every valid authority. */
  lemma UnknownIsDenied(m: Manifest, external: External, request: Request, at: Instant)
    requires ValidManifest(m) && (external.Observed? ==> ValidManifest(external.manifest))
    requires request.platform.UnknownPlatform? || request.architecture.UnknownArchitecture? || request.backend.UnknownBackend?
    ensures Evaluate(m, external, request, at).decision == Deny
  {
    var found := FindBackend(m.backends, request.backend);
    if found.Some? {
      assert ValidBackend(found.value, SourceIds(m.sources));
    }
  }

  /** The URL of a source that the authority names for the backend asked for. */
  ghost predicate IsEvidence(m: Manifest, id: BackendId, url: string) {
    exists b, source :: b in m.backends && b.id == id && source in m.sources && source.id in b.sourceIds && source.url == url
  }

  /**
   * The evidence of a verdict, allowed or denied, is exactly the URLs of the authority's own sources for the backend
   * asked for, with nothing of an external document; only a locked policy shows none.
   */
  lemma EvidenceIsAuthoritative(m: Manifest, external: External, request: Request, at: Instant, url: string)
    requires ValidManifest(m) && (external.Observed? ==> ValidManifest(external.manifest))
    ensures url in Evaluate(m, external, request, at).evidenceUrls <==>
            !external.Invalid? && IsEvidence(m, request.backend, url)
  {
    hide EvidenceUrls, ValidBackend;
    var found := FindBackend(m.backends, request.backend);
    if found.Some? {
      EvidenceOf(m, found.value.sourceIds, url);
      forall b | b in m.backends && b.id == request.backend
        ensures b == found.value
      {
        BackendIsUnique(m, b, found.value);
      }
    }
  }

  lemma EvidenceOf(m: Manifest, ids: seq<string>, url: string)
    requires ValidManifest(m)
    ensures url in EvidenceUrls(m, ids) <==> exists source :: source in m.sources && source.url == url && source.id in ids
  {
    hide ValidManifest;
    if url in EvidenceUrls(m, ids) {
      EvidenceHasSource(m, ids, url);
    }
    if source :| source in m.sources && source.url == url && source.id in ids {
      SourceIsUnique(m);
      SourceHasUrl(m.sources, source);
      SourceIsEvidence(m, ids, source);
    }
  }

  lemma SourceIsUnique(m: Manifest)
    requires ValidManifest(m)
    ensures forall a, b | a in m.sources && b in m.sources && a.id == b.id :: a == b
  {
    hide ValidSource, ValidBackend;
    forall a, b | a in m.sources && b in m.sources && a.id == b.id
      ensures a == b
    {
      var i :| 0 <= i < |m.sources| && m.sources[i] == a;
      var j :| 0 <= j < |m.sources| && m.sources[j] == b;
      assert SourceIds(m.sources)[i] == SourceIds(m.sources)[j];
    }
  }

  lemma {:induction false} EvidenceHasSource(m: Manifest, ids: seq<string>, url: string)
    requires url in EvidenceUrls(m, ids)
    ensures exists source :: source in m.sources && source.url == url && source.id in ids
  {
    var id := ids[|ids| - 1];
    if url in EvidenceUrls(m, ids[..|ids| - 1]) {
      EvidenceHasSource(m, ids[..|ids| - 1], url);
      var source :| source in m.sources && source.url == url && source.id in ids[..|ids| - 1];
      assert source.id in ids;
    } else {
      UrlHasSource(m.sources, id);
    }
  }

  lemma {:induction false} UrlHasSource(sources: seq<Source>, id: string)
    requires id in SourceUrls(sources)
    ensures exists source :: source in sources && source.id == id && source.url == SourceUrls(sources)[id]
  {
    var last := sources[|sources| - 1];
    if last.id != id {
      UrlHasSource(sources[..|sources| - 1], id);
      var source :| source in sources[..|sources| - 1] && source.id == id && source.url == SourceUrls(sources)[id];
      assert source in sources;
    } else {
      assert last in sources;
    }
  }

  lemma {:induction false} SourceHasUrl(sources: seq<Source>, source: Source)
    requires source in sources && forall a, b | a in sources && b in sources && a.id == b.id :: a == b
    ensures source.id in SourceUrls(sources) && SourceUrls(sources)[source.id] == source.url
  {
    var last := sources[|sources| - 1];
    assert last in sources;
    if last.id != source.id {
      SourceHasUrl(sources[..|sources| - 1], source);
    }
  }

  lemma {:induction false} SourceIsEvidence(m: Manifest, ids: seq<string>, source: Source)
    requires source.id in ids && source.id in SourceUrls(m.sources) && SourceUrls(m.sources)[source.id] == source.url
    ensures source.url in EvidenceUrls(m, ids)
  {
    if ids[|ids| - 1] != source.id {
      SourceIsEvidence(m, ids[..|ids| - 1], source);
    }
  }
}

/**
 * The execution half of a remote command: wake-up, guarded launch, one client replacement, wake retries and
 * reconnects. Process outcomes, discovery results and cancellation are arbitrary; the contracts hold for all of them.
 */
module RemoteSession {
  import opened Prelude
  import opened RemoteTrace

  const MAX_WAKE_RETRIES: nat := 5
  const MAX_RECONNECTS: nat := 5
  const CAPTURE_LIMIT: nat := 0x100000

  /** What `errors.Is` can tell about a failure. */
  datatype Failure = Canceled | DeadlineExceeded | OtherFailure

  datatype ExitCode = ExitOk | ExitInternal | ExitBlocked

  /** One automatic selection: its local preflight and what the passive resolver found for it. */
  datatype Candidate = Candidate(selection: string, ready: bool, client: Option<Client>)

  datatype Settings = Settings(
    automatic: bool,                        // the client was chosen automatically
    requiredFlavor: Option<Flavor>,         // narrows the recovery of a stream
    qtPlatform: bool,                       // a Qt platform was asked for, which narrows the other recoveries to Qt
    wake: bool,                             // a wake-up packet was requested
    wakeRetries: nat,                       // additional listings after a wake-up
    reconnects: nat,                        // additional stream attempts
    application: string,
    applicationRequired: bool,              // a plain listing must advertise the application
    listed: (string, string, Flavor) -> bool,
    trim: string -> string)

  /** A bounded copy of live output: it keeps a prefix and accepts the rest. */
  class ListingCapture {
    var buffer: string
    var remaining: nat

    ghost predicate Captures(output: string)
      reads this
    {
      && remaining == CAPTURE_LIMIT - |buffer|
      && buffer == if |output| <= CAPTURE_LIMIT then output else output[..CAPTURE_LIMIT]
    }

    constructor ()
      ensures Captures("")
    {
      buffer, remaining := "", CAPTURE_LIMIT;
    }

    method Write(data: string, ghost output: string) returns (written: nat)
      requires Captures(output)
      modifies this
      ensures Captures(output + data) && written == |data|
    {
      if remaining > 0 {
        var keep := |data|;
        if keep > remaining {
          keep := remaining;
        }
        buffer := buffer + data[..keep];
        remaining := remaining - keep;
      }
      assert |output| <= CAPTURE_LIMIT ==> data[..|data|] == data;
      written := |data|;
    }
  }

  function Joined(chunks: seq<string>): string {
    if chunks == [] then "" else Joined(chunks[..|chunks| - 1]) + chunks[|chunks| - 1]
  }

  /** Whatever the chunking of the output, the captured text is its prefix up to the limit. */
  method CaptureAll(chunks: seq<string>) returns (output: string)
    ensures output == if |Joined(chunks)| <= CAPTURE_LIMIT then Joined(chunks) else Joined(chunks)[..CAPTURE_LIMIT]
  {
    var capture := new ListingCapture();
    for i := 0 to |chunks|
      invariant capture.Captures(Joined(chunks[..i]))
      modifies capture
    {
      assert chunks[..i + 1][..i] == chunks[..i];
      var _ := capture.Write(chunks[i], Joined(chunks[..i]));
    }
    assert chunks[..|chunks|] == chunks;
    output := capture.buffer;
  }

  predicate FlavorMatches(required: Flavor, actual: Flavor) {
    if required == Qt then actual == Qt || actual == Flatpak else actual == required
  }

  predicate Acceptable(c: Candidate, required: Option<Flavor>, excluded: string) {
    && c.ready && c.client.Some?
    && (required.Some? ==> FlavorMatches(required.value, c.client.value.flavor))
    && (excluded != "" ==> c.client.value.binary != excluded)
  }

  /** The first acceptable candidate in selection order, if any. */
  method DiscoverExcluding(candidates: seq<Candidate>, required: Option<Flavor>, excluded: string)
    returns (found: Option<Candidate>)
    ensures found.None? ==> forall c | c in candidates :: !Acceptable(c, required, excluded)
    ensures found.Some? ==> exists i :: 0 <= i < |candidates| && candidates[i] == found.value
                                        && Acceptable(candidates[i], required, excluded)
                                        && forall k :: 0 <= k < i ==> !Acceptable(candidates[k], required, excluded)
  {
    for i := 0 to |candidates|
      invariant forall k :: 0 <= k < i ==> !Acceptable(candidates[k], required, excluded)
    {
      var c := candidates[i];
      if !c.ready {
        continue;
      }
      if c.client.None? {
        continue;
      }
      if required.Some? && !FlavorMatches(required.value, c.client.value.flavor) {
        continue;
      }
      if excluded != "" && c.client.value.binary == excluded {
        continue;
      }
      return Some(c);
    }
    return None;
  }

  class Session {
    const settings: Settings
    var client: Client
    var plan: Plan
    var listPlan: Plan
    var fallbackTried: bool
    var cancelled: bool
    var trace: Trace

    /** Counters of the trace, kept for the contracts below. */
    ghost var launches: nat
    ghost var listings: nat
    ghost var executions: nat
    ghost var replacements: nat
    ghost var last: Option<Event>
    ghost var stopped: bool
    ghost var woken: bool

    ghost predicate Valid()
      reads `trace, `launches, `listings, `executions, `replacements, `last, `stopped, `woken
    {
      Lawful(trace) && Tally(trace, launches, listings, executions, replacements, last, stopped, woken)
    }

    constructor (settings: Settings, client: Client)
      ensures Valid() && trace == [] && !stopped && !fallbackTried && !woken
      ensures this.settings == settings && this.client == client
    {
      this.settings, this.client := settings, client;
      plan, listPlan := Plan(client, List), Plan(client, List);
      fallbackTried, cancelled, trace := false, false, [];
      launches, listings, executions, replacements, last, stopped, woken := 0, 0, 0, 0, None, false, false;
    }

    /** Once a stream was launched, a failed check is followed by nothing but a replacement's listing. */
    ghost predicate NotRetried()
      reads `trace, `launches, `last
    {
      launches > 0 && FailedCheck(last) ==> trace != [] && Final(trace).Replaced?
    }

    /** Append one event that the laws allow here. */
    method Emit(e: Event)
      requires Valid()
      requires IsLaunch(e) ==> Authorizes(last, e.plan.client)
      requires e.Executed? ==> !stopped && NotRetried()
      requires e.WakeSent? ==> trace == []
      modifies `trace, `launches, `listings, `executions, `replacements, `last, `stopped, `woken
      ensures Valid() && trace == old(trace) + [e]
      ensures launches == old(launches) + (if IsLaunch(e) then 1 else 0)
      ensures listings == old(listings) + (if IsListing(e) then 1 else 0)
      ensures executions == old(executions) + (if e.Executed? then 1 else 0)
      ensures replacements == old(replacements) + (if e.Replaced? then 1 else 0)
      ensures last == (if e.Executed? then Some(e) else old(last))
      ensures stopped == (old(stopped) || e == StopObserved)
      ensures woken == (old(woken) || e == WakeSent)
    {
      hide Lawful, Count, Tally, FailedCheck, Authorizes;
      TallyMeans(trace, launches, listings, executions, replacements, last, stopped, woken);
      LawfulExtended(trace, e);
      TallyExtended(trace, e, launches, listings, executions, replacements, last, stopped, woken);
      trace, last := trace + [e], if e.Executed? then Some(e) else last;
      stopped, woken := stopped || e == StopObserved, woken || e == WakeSent;
      launches, listings := launches + (if IsLaunch(e) then 1 else 0), listings + (if IsListing(e) then 1 else 0);
      executions, replacements :=
        executions + (if e.Executed? then 1 else 0), replacements + (if e.Replaced? then 1 else 0);
    }

    /** The user may cancel at any time, and a cancelled context stays cancelled. */
    method MaybeCancel()
      modifies `cancelled
      ensures old(cancelled) ==> cancelled
    {
      var now: bool := *;
      cancelled := cancelled || now;
    }

    /** Run a process to its end, with any outcome and any output. */
    method Execute(p: Plan) returns (failure: Option<Failure>, deadline: bool, output: string)
      requires Valid() && !stopped && NotRetried()
      requires p.operation == Stream ==> Authorizes(last, p.client)
      modifies this`cancelled, `trace, `launches, `listings, `executions, `replacements, `last, `stopped, `woken
      ensures Valid() && stopped == old(stopped) && woken == old(woken) && (old(cancelled) ==> cancelled)
      ensures last == Some(Executed(p, failure.None?, settings.listed(output, settings.application, p.client.flavor),
                                    failure.Some? && TimedOut(failure.value, deadline)))
      ensures trace == old(trace) + [last.value]
      ensures launches == old(launches) + (if p.operation == Stream then 1 else 0)
      ensures listings == old(listings) + (if p.operation == List then 1 else 0)
      ensures executions == old(executions) + 1 && replacements == old(replacements)
    {
      hide Valid;
      failure, deadline := *, *;
      var chunks: seq<string> := *;
      MaybeCancel();
      output := CaptureAll(chunks);
      var timedOut := failure.Some? && TimedOut(failure.value, deadline);
      Emit(Executed(p, failure.None?, settings.listed(output, settings.application, p.client.flavor), timedOut));
    }

    /** The process ran into its own deadline while the command itself was not cancelled. */
    predicate TimedOut(failure: Failure, deadline: bool)
      reads this
    {
      !cancelled && (deadline || failure == DeadlineExceeded)
    }

    /** Wait between attempts; only cancellation interrupts a wait. */
    method Wait() returns (ok: bool)
      modifies `cancelled
      ensures old(cancelled) ==> cancelled
      ensures !ok ==> cancelled
    {
      MaybeCancel();
      var fired: bool := *;
      ok := fired || !cancelled;
    }

    /**
     * The retry decision: is this failure, or the context as it is now, a reason to stop? A positive answer is recorded.
     */
    method ReconnectStopped(failure: Failure) returns (stop: bool)
      requires Valid()
      modifies this`cancelled, `trace, `launches, `listings, `executions, `replacements, `last, `stopped, `woken
      ensures Valid() && stop == (cancelled || failure != OtherFailure) && (old(cancelled) ==> cancelled)
      ensures stopped == (old(stopped) || stop) && woken == old(woken)
      ensures if stop then trace == old(trace) + [StopObserved] else trace == old(trace)
      ensures launches == old(launches) && listings == old(listings) && executions == old(executions)
      ensures replacements == old(replacements) && last == old(last)
    {
      hide Valid;
      MaybeCancel();
      stop := cancelled || failure != OtherFailure;
      if stop {
        Emit(StopObserved);
      }
    }

    /** Build a validated plan for a client; planning may fail, but never plans for another client. */
    method BuildPlan(c: Client, operation: Operation) returns (p: Option<Plan>)
      ensures p.Some? ==> p.value == Plan(c, operation)
    {
      var ok: bool := *;
      p := if ok then Some(Plan(c, operation)) else None;
    }

    /** Rebuild both plans of a stream; when one cannot be built neither is replaced. */
    method RebuildStreamPlans() returns (ok: bool)
      modifies `plan, `listPlan
      ensures ok ==> plan == Plan(client, Stream) && listPlan == Plan(client, List)
      ensures !ok ==> plan == old(plan) && listPlan == old(listPlan)
    {
      var streamPlan := BuildPlan(client, Stream);
      if streamPlan.None? {
        return false;
      }
      var applicationPlan := BuildPlan(client, List);
      if applicationPlan.None? {
        return false;
      }
      plan, listPlan := streamPlan.value, applicationPlan.value;
      return true;
    }

    /** Look for another installed client, excluding the one that just failed. */
    method Replace(required: Option<Flavor>) returns (found: bool)
      requires Valid()
      modifies this`client, `cancelled, `trace, `launches, `listings, `executions, `replacements, `last, `stopped, `woken
      ensures Valid() && (old(cancelled) ==> cancelled)
      ensures !found ==> client == old(client) && trace == old(trace)
      ensures found ==> trace == old(trace) + [Replaced(old(client), client)]
      ensures found && settings.trim(old(client).binary) == old(client).binary != "" ==>
                client.binary != old(client).binary
      ensures found && required.Some? ==> FlavorMatches(required.value, client.flavor)
      ensures launches == old(launches) && listings == old(listings) && executions == old(executions)
      ensures replacements == old(replacements) + (if found then 1 else 0)
      ensures last == old(last) && stopped == old(stopped) && woken == old(woken)
    {
      hide Valid;
      var candidates: seq<Candidate> := *;
      MaybeCancel();
      var candidate := DiscoverExcluding(candidates, required, settings.trim(client.binary));
      found := candidate.Some?;
      if found {
        var previous := client;
        client := candidate.value.client.value;
        Emit(Replaced(previous, client));
      }
    }

    // -------------------------------------------------------------- streaming

    ghost predicate PlansAgree()
      reads `client, `plan, `listPlan
    {
      plan == Plan(client, Stream) && listPlan == Plan(client, List)
    }

    /** How often this session may still replace its client. */
    ghost function Fallbacks(): nat
      reads `fallbackTried
    {
      if settings.automatic && !fallbackTried then 1 else 0
    }

    /**
     * Give one other client a chance after a failed check. `Some(ExitOk)` asks for another check with the replacement,
     * `Some(ExitBlocked)` reports that nothing can be planned for it, and `None` leaves the failure to the caller.
     */
    method TryAnotherStreamClient(failure: Failure) returns (next: Option<ExitCode>)
      requires Valid() && PlansAgree() && !stopped
      modifies this
      ensures Valid() && launches == old(launches) && listings == old(listings) && executions == old(executions)
      ensures last == old(last) && woken == old(woken) && (old(cancelled) ==> cancelled)
      ensures replacements == old(replacements) + (if next.Some? then 1 else 0)
      ensures next.Some? ==>
                && settings.automatic && !old(fallbackTried) && fallbackTried && !stopped && failure == OtherFailure
                && trace == old(trace) + [Replaced(old(client), client)]
      ensures next.Some? ==> next == Some(ExitBlocked) || (next == Some(ExitOk) && PlansAgree())
      ensures next == None ==> PlansAgree() && (stopped ==> cancelled || failure != OtherFailure)
      ensures next == None ==> (stopped || Fallbacks() == 0) && Fallbacks() <= old(Fallbacks())
    {
      hide Valid;
      if settings.automatic && !fallbackTried {
        var stop := ReconnectStopped(failure);
        if !stop {
          fallbackTried := true;
          var found := Replace(settings.requiredFlavor);
          if found {
            var rebuilt := RebuildStreamPlans();
            return if rebuilt then Some(ExitOk) else Some(ExitBlocked);
          }
        }
      }
      return None;
    }

    /**
     * The application check before every launch. It runs one listing, or two when the single automatic replacement
     * is spent on it. It succeeds only with an authorization that is the last execution, for the current plans. A
     * listing that ran into its own deadline fails with an ordinary error, which leaves a wake retry possible: it
     * records no stop and spends no replacement. Any other failed process is the end only when it is a reason to stop
     * or the replacement is spent.
     */
    method CheckStreamApplication() returns (code: ExitCode, failure: Option<Failure>)
      requires Valid() && !stopped && PlansAgree() && NotRetried()
      modifies this
      ensures Valid() && launches == old(launches) && woken == old(woken) && (old(cancelled) ==> cancelled)
      ensures old(listings) < listings && listings + Fallbacks() <= old(listings) + 1 + old(Fallbacks())
      ensures replacements + Fallbacks() <= old(replacements) + old(Fallbacks())
      ensures executions - listings == old(executions - listings)
      ensures code == ExitOk <==> failure.None?
      ensures code == ExitOk ==> !stopped && PlansAgree() && Authorizes(last, client)
      ensures code == ExitInternal ==> PlansAgree() && (stopped ==> cancelled || failure.value != OtherFailure)
      ensures code != ExitOk ==> FailedCheck(last)
      ensures last.Some? && last.value.Executed?
      ensures last.value.timedOut ==>
                && code == ExitInternal && failure == Some(OtherFailure) && !stopped && Final(trace) == last.value
                && (listings == old(listings) + 1 ==> fallbackTried == old(fallbackTried) && replacements == old(replacements))
      ensures code == ExitInternal && !last.value.timedOut ==> !last.value.succeeded && (stopped || Fallbacks() == 0)
    {
      hide Valid;
      while true
        invariant Valid() && !stopped && PlansAgree() && NotRetried() && woken == old(woken)
        invariant launches == old(launches) && (old(cancelled) ==> cancelled)
        invariant listings == old(listings) ==> fallbackTried == old(fallbackTried) && replacements == old(replacements)
        invariant old(listings) <= listings && listings + Fallbacks() <= old(listings) + old(Fallbacks())
        invariant replacements + Fallbacks() <= old(replacements) + old(Fallbacks())
        invariant executions - listings == old(executions - listings)
        decreases !fallbackTried
      {
        var preflightFailure, deadline, output := Execute(listPlan);
        if preflightFailure.Some? {
          var timedOut := TimedOut(preflightFailure.value, deadline);
          if timedOut {
            // The error returned does not wrap the deadline.
            return ExitInternal, Some(OtherFailure);
          }
          var next := TryAnotherStreamClient(preflightFailure.value);
          if next == Some(ExitOk) {
            continue;
          }
          if next.Some? {
            return ExitBlocked, Some(OtherFailure);
          }
          return ExitInternal, preflightFailure;
        }
        if !settings.listed(output, settings.application, client.flavor) {
          return ExitBlocked, Some(OtherFailure);
        }
        return ExitOk, None;
      }
    }

    /** Additional listings after a wake-up; without one there is no wake-retry plan. */
    function WakeRetries(): nat {
      if settings.wake then settings.wakeRetries else 0
    }

    function AutomaticFallbacks(): nat {
      if settings.automatic then 1 else 0
    }

    ghost predicate LastSucceeded(launch: bool)
      reads `last
    {
      last.Some? && last.value.Executed? && last.value.succeeded && (launch ==> IsLaunch(last.value))
    }

    /** Without a reason to stop, a stream ends with a failed check or with the last of its launches. */
    ghost predicate GaveUpStreaming(code: ExitCode)
      reads this
    {
      code == ExitInternal && !stopped && !cancelled ==>
        && last.Some?
        && if IsLaunch(last.value) then launches == settings.reconnects + 1 else FailedCheck(last)
    }

    /** A session that has not run any process yet. */
    ghost predicate Fresh()
      reads this
    {
      Valid() && !stopped && !fallbackTried && launches == listings == executions == replacements == 0 && last == None
    }

    /** The first check, repeated while wake retries remain and nothing says stop. */
    method AwaitApplication() returns (code: ExitCode)
      requires Fresh() && PlansAgree()
      modifies this
      ensures Valid() && launches == 0 && executions == listings && woken == old(woken)
      ensures listings + Fallbacks() <= WakeRetries() + 1 + AutomaticFallbacks()
      ensures replacements + Fallbacks() <= AutomaticFallbacks()
      ensures code == ExitOk ==> !stopped && PlansAgree() && Authorizes(last, client)
      ensures code != ExitOk ==> FailedCheck(last)
      ensures code == ExitInternal && !stopped && !cancelled ==> listings > WakeRetries()
    {
      hide Valid;
      var attempt := 0;
      while true
        invariant attempt <= WakeRetries() && Valid() && !stopped && PlansAgree()
        invariant launches == 0 && executions == listings && attempt <= listings && woken == old(woken)
        invariant listings + Fallbacks() <= attempt + AutomaticFallbacks()
        invariant replacements + Fallbacks() <= AutomaticFallbacks()
        decreases WakeRetries() - attempt
      {
        var failure;
        code, failure := CheckStreamApplication();
        if failure.None? {
          return;
        }
        if !settings.wake || attempt >= settings.wakeRetries {
          return;
        }
        var stop := ReconnectStopped(failure.value);
        if stop || code != ExitInternal {
          return;
        }
        var waited := Wait();
        if !waited {
          return ExitInternal;
        }
        attempt := attempt + 1;
      }
    }

    /** Launch, and after a failed session check the application again before launching again. */
    method LaunchAndReconnect() returns (code: ExitCode)
      requires Valid() && !stopped && PlansAgree() && Authorizes(last, client)
      requires launches == 0 && executions == listings
      modifies this
      ensures Valid() && launches <= settings.reconnects + 1 && executions == listings + launches
      ensures woken == old(woken)
      ensures listings + Fallbacks() <= old(listings) + settings.reconnects + old(Fallbacks())
      ensures replacements + Fallbacks() <= old(replacements) + old(Fallbacks())
      ensures code == ExitOk <==> LastSucceeded(true)
      ensures launches > 0 && GaveUpStreaming(code)
    {
      hide Valid;
      var attempt := 0;
      while true
        invariant attempt <= settings.reconnects && Valid() && !stopped && PlansAgree() && Authorizes(last, client)
        invariant launches == attempt && executions == listings + launches && woken == old(woken)
        invariant listings + Fallbacks() <= old(listings) + attempt + old(Fallbacks())
        invariant replacements + Fallbacks() <= old(replacements) + old(Fallbacks())
        decreases settings.reconnects - attempt
      {
        var failure, _, _ := Execute(plan);
        if failure.None? {
          return ExitOk;
        }
        if attempt >= settings.reconnects {
          return ExitInternal;
        }
        var stop := ReconnectStopped(failure.value);
        if stop {
          return ExitInternal;
        }
        var waited := Wait();
        if !waited {
          return ExitInternal;
        }
        var checkFailure;
        code, checkFailure := CheckStreamApplication();
        if checkFailure.Some? {
          return;
        }
        attempt := attempt + 1;
      }
    }

    /**
     * A live stream. At most one launch per reconnect plus the first, each authorized; one listing per wake retry,
     * per launch and for the one replacement. It succeeds exactly when the last process was a successful launch.
     */
    method RunStream() returns (code: ExitCode)
      requires Fresh()
      modifies this
      ensures Valid() && replacements <= AutomaticFallbacks() && woken == old(woken)
      ensures launches <= settings.reconnects + 1
      ensures listings <= WakeRetries() + settings.reconnects + 1 + AutomaticFallbacks()
      ensures executions == listings + launches
      ensures code == ExitOk <==> LastSucceeded(true)
      ensures GaveUpStreaming(code)
      ensures code == ExitInternal && !stopped && !cancelled && launches == 0 ==> listings > WakeRetries()
    {
      hide Valid;
      var rebuilt := RebuildStreamPlans();
      if !rebuilt {
        return ExitBlocked;
      }
      code := AwaitApplication();
      if code == ExitOk {
        code := LaunchAndReconnect();
      }
    }

    // -------------------------------------------------------------- listing, pairing and quitting

    /**
     * Give one other client a chance, only ever after the first attempt of an automatic selection failed without a
     * reason to stop. `Some(ExitOk)` asks for another attempt with the replacement, any other exit code ends the
     * command, and `None` leaves the failure to the caller.
     */
    method TryAnotherClient(failure: Failure, attempt: nat, operation: Operation) returns (next: Option<ExitCode>)
      requires Valid() && plan == Plan(client, operation) && !stopped
      modifies this
      ensures Valid() && launches == old(launches) && listings == old(listings) && executions == old(executions)
      ensures last == old(last) && woken == old(woken) && (old(cancelled) ==> cancelled)
      ensures replacements + Fallbacks() <= old(replacements) + old(Fallbacks())
      ensures replacements == old(replacements) + (if next.Some? then 1 else 0)
      ensures next.Some? ==> settings.automatic && attempt == 0 && !old(fallbackTried) && fallbackTried && !stopped
      ensures next.Some? ==> failure == OtherFailure && trace == old(trace) + [Replaced(old(client), client)]
      ensures next == Some(ExitOk) ==> plan == Plan(client, operation)
      ensures next != Some(ExitInternal)
      ensures next == None ==> plan == Plan(client, operation) && (stopped ==> cancelled || failure != OtherFailure)
      ensures next == None && attempt == 0 ==> stopped || Fallbacks() == 0
      ensures attempt > 0 ==> next == None && trace == old(trace) && fallbackTried == old(fallbackTried)
    {
      hide Valid;
      if settings.automatic && !fallbackTried && attempt == 0 {
        var stop := ReconnectStopped(failure);
        if !stop {
          fallbackTried := true;
          var found := Replace(if settings.qtPlatform then Some(Qt) else None);
          if found {
            var rebuilt := BuildPlan(client, operation);
            if rebuilt.None? {
              return Some(ExitBlocked);
            }
            plan := rebuilt.value;
            return Some(ExitOk);
          }
        }
      }
      return None;
    }

    /** An application listing; a replacement consumes one of its attempts. */
    method RunList() returns (code: ExitCode)
      requires Fresh() && plan == Plan(client, List)
      modifies this
      ensures Valid() && launches == 0 && executions == listings && replacements <= AutomaticFallbacks()
      ensures woken == old(woken) && (code == ExitInternal && !stopped ==> Fallbacks() == 0)
      ensures executions <= if WakeRetries() == 0 then 1 + AutomaticFallbacks() else WakeRetries() + 1
      ensures code == ExitOk <==> LastSucceeded(false) && (settings.applicationRequired ==> last.value.advertised)
      ensures code == ExitInternal && !stopped && !cancelled ==> executions > WakeRetries()
    {
      hide Valid;
      var attempt := 0;
      while true
        invariant Valid() && !stopped && plan == Plan(client, List) && woken == old(woken)
        invariant attempt > 0 ==> Fallbacks() == 0
        invariant launches == 0 && executions == listings == attempt
        invariant replacements + Fallbacks() <= AutomaticFallbacks()
        invariant attempt <= WakeRetries() || (attempt == 1 && settings.automatic && fallbackTried)
        decreases WakeRetries() + 1 - attempt
      {
        var failure, _, output := Execute(plan);
        if failure.None? {
          if settings.applicationRequired && !settings.listed(output, settings.application, client.flavor) {
            return ExitBlocked;
          }
          return ExitOk;
        }
        var next := TryAnotherClient(failure.value, attempt, List);
        if next == Some(ExitOk) {
          attempt := attempt + 1;
          continue;
        }
        if next.Some? {
          return next.value;
        }
        if !settings.wake || attempt >= settings.wakeRetries {
          return ExitInternal;
        }
        var stop := ReconnectStopped(failure.value);
        if stop {
          return ExitInternal;
        }
        var waited := Wait();
        if !waited {
          return ExitInternal;
        }
        attempt := attempt + 1;
      }
    }

    /** Pairing or ending a remote session: one process, and one more for a replacement. */
    method RunControl(operation: Operation) returns (code: ExitCode)
      requires operation == Pair || operation == Quit
      requires Fresh() && plan == Plan(client, operation)
      modifies this
      ensures Valid() && launches == listings == 0 && replacements <= AutomaticFallbacks()
      ensures woken == old(woken) && (code == ExitInternal && !stopped ==> Fallbacks() == 0)
      ensures executions <= 1 + AutomaticFallbacks()
      ensures code == ExitOk <==> LastSucceeded(false)
    {
      hide Valid;
      var attempt := 0;
      while true
        invariant Valid() && !stopped && plan == Plan(client, operation) && woken == old(woken)
        invariant launches == listings == 0 && executions == attempt <= 1
        invariant replacements + Fallbacks() <= AutomaticFallbacks()
        invariant attempt == 1 ==> settings.automatic && fallbackTried
        decreases 1 - attempt
      {
        var failure, _, _ := Execute(plan);
        if failure.None? {
          return ExitOk;
        }
        var next := TryAnotherClient(failure.value, attempt, operation);
        if next != Some(ExitOk) {
          return if next.Some? then next.value else ExitInternal;
        }
        attempt := attempt + 1;
      }
    }

    /** Send the wake-up packet, once, and give the host time to start. */
    method Wake() returns (ok: bool)
      requires Fresh() && trace == []
      modifies this
      ensures Fresh() && woken && trace == [WakeSent] && plan == old(plan) && client == old(client)
    {
      Emit(WakeSent);
      MaybeCancel();
      var sent: bool := *;
      if !sent {
        return false;
      }
      ok := Wait();
    }

    /**
     * The whole command: whatever happens, the trace obeys the laws and the bounds of its operation, and starts with a
     * wake-up exactly when one was requested. Without a reason to stop, a listing fails only after every wake retry and
     * the replacement, pairing and quitting after the replacement, a stream that never launched after every wake retry,
     * and a stream that launched after every reconnect or, at once, after its first failed check.
     */
    method Run(operation: Operation) returns (code: ExitCode)
      requires Fresh() && trace == []
      modifies this
      ensures Lawful(trace) && Count(trace, IsReplacement) <= AutomaticFallbacks()
      ensures operation == Stream ==>
                && Count(trace, IsLaunch) <= settings.reconnects + 1
                && Count(trace, IsListing) <= WakeRetries() + settings.reconnects + 1 + AutomaticFallbacks()
      ensures operation == Stream && settings.wakeRetries <= MAX_WAKE_RETRIES && settings.reconnects <= MAX_RECONNECTS ==>
                Count(trace, IsLaunch) <= 6 && Count(trace, IsListing) <= 12
      ensures operation != Stream ==> Count(trace, IsLaunch) == 0
      ensures operation == List ==>
                Count(trace, IsExecution) <= if WakeRetries() == 0 then 1 + AutomaticFallbacks() else WakeRetries() + 1
      ensures operation == Pair || operation == Quit ==> Count(trace, IsExecution) <= 1 + AutomaticFallbacks()
      ensures last == LastExecution(trace) && stopped == Stopped(trace)
      ensures code == ExitInternal && !stopped && !cancelled && trace != [WakeSent] ==>
                && (operation == List ==> Count(trace, IsExecution) > WakeRetries())
                && (operation != Stream ==> Fallbacks() == 0)
                && (operation == Stream && Count(trace, IsLaunch) == 0 ==> Count(trace, IsListing) > WakeRetries())
                && (operation == Stream ==> GaveUpStreaming(code))
      ensures settings.wake && trace == [] ==> code == ExitBlocked
      ensures trace != [] ==> (trace[0] == WakeSent <==> settings.wake)
      ensures operation != List ==> (code == ExitOk <==> LastSucceeded(operation == Stream))
      ensures operation == List ==>
                (code == ExitOk <==> LastSucceeded(false) && (settings.applicationRequired ==> last.value.advertised))
    {
      hide Lawful, Count, LastExecution, Stopped, FailedCheck, Authorizes;
      var built := BuildPlan(client, operation);
      if built.None? {
        return ExitBlocked;
      }
      plan := built.value;
      if settings.wake {
        var sent := Wake();
        if !sent {
          return ExitInternal;
        }
      }
      match operation
      case Stream => code := RunStream();
      case List => code := RunList();
      case _ => code := RunControl(operation);
    }
  }
}

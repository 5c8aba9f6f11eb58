/** What a remote session does, as a trace of events, and the laws every trace of a session obeys. */
module RemoteTrace {
  import opened Prelude

  datatype Flavor = Qt | Flatpak | Embedded

  datatype Client = Client(binary: string, flavor: Flavor)

  datatype Operation = List | Pair | Quit | Stream

  /** A validated argument vector: which client runs which operation. Host and route are fixed for a session. */
  datatype Plan = Plan(client: Client, operation: Operation)

  datatype Event =
    | WakeSent
    | Executed(plan: Plan, succeeded: bool, advertised: bool, timedOut: bool)
    | Replaced(previous: Client, current: Client)
    | StopObserved

  type Trace = seq<Event>

  function Init(trace: Trace): Trace
    requires trace != []
  {
    trace[..|trace| - 1]
  }

  function Final(trace: Trace): Event
    requires trace != []
  {
    trace[|trace| - 1]
  }

  function Count(trace: Trace, p: Event -> bool): nat {
    if trace == [] then 0 else Count(Init(trace), p) + if p(Final(trace)) then 1 else 0
  }

  predicate IsLaunch(e: Event) {
    e.Executed? && e.plan.operation == Stream
  }

  predicate IsListing(e: Event) {
    e.Executed? && e.plan.operation == List
  }

  predicate IsExecution(e: Event) {
    e.Executed?
  }

  predicate IsWake(e: Event) {
    e.WakeSent?
  }

  predicate IsReplacement(e: Event) {
    e.Replaced?
  }

  function LastExecution(trace: Trace): Option<Event> {
    if trace == [] then None
    else if Final(trace).Executed? then Some(Final(trace))
    else LastExecution(Init(trace))
  }

  predicate Stopped(trace: Trace) {
    StopObserved in trace
  }

  /** The execution just before a launch must be a successful listing, by the same client, that advertised the app. */
  predicate Authorizes(e: Option<Event>, client: Client) {
    e == Some(Executed(Plan(client, List), true, true, false))
  }

  predicate IsAuthorization(e: Event) {
    IsListing(e) && e.succeeded && e.advertised
  }

  /** A listing that failed or did not advertise the application. */
  predicate FailedCheck(e: Option<Event>) {
    e.Some? && IsListing(e.value) && !IsAuthorization(e.value)
  }

  /** Nothing runs after a stop; and once there was a launch, nothing runs after a failed check but a replacement's. */
  predicate MayExecute(before: Trace) {
    && !Stopped(before)
    && (Count(before, IsLaunch) > 0 && FailedCheck(LastExecution(before)) ==> before != [] && Final(before).Replaced?)
  }

  /** The laws, one event at a time: launches are authorized, executions allowed, one wake-up and it is first. */
  predicate Lawful(trace: Trace) {
    trace != [] ==>
      var before, e := Init(trace), Final(trace);
      && Lawful(before)
      && (IsLaunch(e) ==> Authorizes(LastExecution(before), e.plan.client))
      && (e.Executed? ==> MayExecute(before))
      && (e.WakeSent? ==> before == [])
  }

  /** Everything a session keeps count of, in one place. */
  predicate Tally(trace: Trace, launches: nat, listings: nat, executions: nat, replacements: nat,
                  last: Option<Event>, stopped: bool, woken: bool)
  {
    && launches == Count(trace, IsLaunch) && listings == Count(trace, IsListing)
    && executions == Count(trace, IsExecution) && replacements == Count(trace, IsReplacement)
    && last == LastExecution(trace) && stopped == Stopped(trace)
    && woken == (trace != [] && trace[0] == WakeSent)
  }

  lemma TallyMeans(trace: Trace, launches: nat, listings: nat, executions: nat, replacements: nat,
                   last: Option<Event>, stopped: bool, woken: bool)
    requires Tally(trace, launches, listings, executions, replacements, last, stopped, woken)
    ensures launches == Count(trace, IsLaunch) && last == LastExecution(trace) && stopped == Stopped(trace)
  {
  }

  lemma CountExtended(trace: Trace, e: Event, p: Event -> bool)
    ensures Count(trace + [e], p) == Count(trace, p) + if p(e) then 1 else 0
  {
    assert Init(trace + [e]) == trace;
  }

  lemma TallyExtended(trace: Trace, e: Event, launches: nat, listings: nat, executions: nat, replacements: nat,
                      last: Option<Event>, stopped: bool, woken: bool)
    requires Tally(trace, launches, listings, executions, replacements, last, stopped, woken)
    requires e.WakeSent? ==> trace == []
    ensures Tally(trace + [e],
                  launches + (if IsLaunch(e) then 1 else 0), listings + (if IsListing(e) then 1 else 0),
                  executions + (if e.Executed? then 1 else 0), replacements + (if e.Replaced? then 1 else 0),
                  if e.Executed? then Some(e) else last, stopped || e == StopObserved, woken || e == WakeSent)
  {
    hide Count;
    CountExtended(trace, e, IsLaunch);
    CountExtended(trace, e, IsListing);
    CountExtended(trace, e, IsExecution);
    CountExtended(trace, e, IsReplacement);
    assert Init(trace + [e]) == trace;
  }

  lemma LawfulExtended(trace: Trace, e: Event)
    requires Lawful(trace)
    requires IsLaunch(e) ==> Authorizes(LastExecution(trace), e.plan.client)
    requires e.Executed? ==> MayExecute(trace)
    requires e.WakeSent? ==> trace == []
    ensures Lawful(trace + [e])
  {
    hide MayExecute, Authorizes, LastExecution;
    assert Init(trace + [e]) == trace;
  }

  lemma {:induction false} LastExecutionIs(trace: Trace, j: nat)
    requires j < |trace| && trace[j].Executed? && forall k :: j < k < |trace| ==> !trace[k].Executed?
    ensures LastExecution(trace) == Some(trace[j])
  {
    if j < |trace| - 1 {
      LastExecutionIs(Init(trace), j);
    }
  }

  lemma {:induction false} LastExecutionAt(trace: Trace) returns (j: nat)
    requires LastExecution(trace).Some?
    ensures j < |trace| && LastExecution(trace) == Some(trace[j]) && trace[j].Executed?
    ensures forall k :: j < k < |trace| ==> !trace[k].Executed?
  {
    if Final(trace).Executed? {
      j := |trace| - 1;
    } else {
      j := LastExecutionAt(Init(trace));
    }
  }

  lemma {:induction false} LawfulPrefix(trace: Trace, i: nat)
    requires Lawful(trace) && i <= |trace|
    ensures Lawful(trace[..i])
  {
    if i < |trace| {
      LawfulPrefix(Init(trace), i);
      assert Init(trace)[..i] == trace[..i];
    } else {
      assert trace[..i] == trace;
    }
  }

  /**
   * In a lawful trace every launch is preceded by a listing by the same client that succeeded and advertised the
   * application, with no other execution between them; so a failed or missing-application check, or another launch,
   * is never the last thing run before a launch.
   */
  lemma LaunchIsGuarded(trace: Trace, i: nat) returns (j: nat)
    requires Lawful(trace) && i < |trace| && IsLaunch(trace[i])
    ensures j < i && trace[j] == Executed(Plan(trace[i].plan.client, List), true, true, false)
    ensures forall k :: j < k < i ==> !trace[k].Executed?
  {
    LawfulPrefix(trace, i + 1);
    assert Init(trace[..i + 1]) == trace[..i] && Final(trace[..i + 1]) == trace[i];
    j := LastExecutionAt(trace[..i]);
  }

  /** Nothing is executed after a stop condition has been observed. */
  lemma StopIsFinal(trace: Trace, i: nat, j: nat)
    requires Lawful(trace) && i < j < |trace| && trace[i] == StopObserved
    ensures !trace[j].Executed?
  {
    LawfulPrefix(trace, j + 1);
    assert Init(trace[..j + 1]) == trace[..j] && Final(trace[..j + 1]) == trace[j];
    assert trace[..j][i] == StopObserved;
  }

  /** At most one wake-up packet, and only as the very first event. */
  lemma {:induction false} WakesOnce(trace: Trace)
    requires Lawful(trace)
    ensures Count(trace, IsWake) <= 1
    ensures forall i | 0 < i < |trace| :: !trace[i].WakeSent?
  {
    if trace != [] {
      WakesOnce(Init(trace));
      if Final(trace).WakeSent? {
        assert Init(trace) == [];
      }
    }
  }

  lemma {:induction false} LaunchIsCounted(trace: Trace, i: nat)
    requires i < |trace| && IsLaunch(trace[i])
    ensures Count(trace, IsLaunch) > 0
  {
    if i < |trace| - 1 {
      LaunchIsCounted(Init(trace), i);
    }
  }

  /**
   * After a launch the first failing check ends the session: the only thing that can run after it is the listing of a
   * client that has just replaced the one that failed.
   */
  lemma FailedCheckIsFinal(trace: Trace, i: nat, j: nat, k: nat)
    requires Lawful(trace) && i < j < k < |trace| && IsLaunch(trace[i]) && FailedCheck(Some(trace[j]))
    requires trace[k].Executed? && forall l :: j < l < k ==> !trace[l].Executed?
    ensures j < k - 1 && trace[k - 1].Replaced?
  {
    LawfulPrefix(trace, k + 1);
    assert Init(trace[..k + 1]) == trace[..k] && Final(trace[..k + 1]) == trace[k];
    LaunchIsCounted(trace[..k], i);
    LastExecutionIs(trace[..k], j);
  }

  /** An authorization is used at most once: launches never outnumber successful listings. */
  lemma {:induction false} AuthorizationsAreNotReused(trace: Trace)
    requires Lawful(trace)
    ensures Count(trace, IsLaunch) <= Count(trace, IsAuthorization)
    ensures LastExecution(trace).Some? && IsAuthorization(LastExecution(trace).value) ==>
              Count(trace, IsLaunch) < Count(trace, IsAuthorization)
  {
    if trace != [] {
      AuthorizationsAreNotReused(Init(trace));
    }
  }
}

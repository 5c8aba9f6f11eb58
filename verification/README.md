# LeagueBridge verification

A Dafny model of the parts of LeagueBridge that decide, from state that may change underneath them, whether to accept,
refuse, retry or stop; with proofs of what those decisions guarantee. `dafny verify dfyconfig.toml` checks all of it.

The modules follow six components of the program.

- **CI snapshot.** `CiTimeline` gives the observed GitHub state at every instant of a discrete clock, the evolution it
  may undergo between calls, and an API client whose answers are arbitrary. `CiGate` is the release gate with its two
  page loops, `CurrentCi` the observation of current main, and `CiSnapshot` what a completed observation means: the calls
  are spread over time and no page is read atomically, yet everything reported held at once.
- **Remote sessions.** `RemoteTrace` states the laws of a session's trace of events. `RemoteSession` is the controller:
  guarded launches, one client replacement, wake retries and reconnects, for every outcome of every process.
- **Evidence.** `Evidence` and `EvidenceSet` validate and evaluate records over time, `TrustPolicy` and `VerifiedSet`
  authenticate a signed set, `SignedTimeline` derives its chronology and signers, `Promotion` and `Preparation` are the
  steps after and before. `Calendar` and `Text` hold instants, days and string order.
- **Strict JSON.** `JsonWalk` is the token walker against trees and their serialisation, `ExactJson` the type-directed
  validator and the two decoders it reconciles. The uniqueness of member names is section 4 of RFC 8259.
- **Filesystem protocols.** `Directory` and `TemplateSet` are the publication of a set of files under hard links and a
  writer who may act between any two operations; `RootedOpen` is the opening of a file below a held directory;
  `Artifacts` and `Staging` are the verification of bundles and staging trees.
- **Policy and canonical text.** `Compat` is the compatibility manifest, its freshness and the launch decision;
  `Splitting` and `Checksums` the checksum file; `HostEndpoint` the host endpoints.

Nondeterminism is explicit. Answers, outcomes, cancellation, faults and a writer's changes are arbitrary values, so a
contract holds for all of them. Where the code returns early, the contract says in both directions when it succeeds. Two
checks of the code turn out to be redundant and several others unreachable; the lemmas that say so are listed below.

## Model

| member | source | states |
|---|---|---|
| CiTimeline.MainNeverReturns | internal/currentci/currentci.go:144-151 | If main only ever moves to commits it never pointed to before, then two reads that see the same commit mean that main showed no other commit at any instant between them |
| CiTimeline.CompletedAttemptIsFrozen | internal/cireleasegate/cireleasegate.go:139-149 | A completed attempt that is seen at two instants with the same attempt number was the identical record at every instant between them |
| CiTimeline.InventoryGrows | internal/cireleasegate/cireleasegate.go:152-194 | The set of runs the server lists for one workflow and commit only grows |
| CiGate.ScanPage | internal/cireleasegate/cireleasegate.go:171-185 | A page is accepted exactly when every run on it is admissible and no run ID repeats across the pages so far; the loop variable is then the highest-ID push or dispatch run of everything scanned |
| CiGate.TakePage | internal/cireleasegate/cireleasegate.go:157-190 | The running checks accept a page exactly when the pages so far, with it, declare one total within the bound and never exceed it |
| CiGate.ReadPage | internal/cireleasegate/cireleasegate.go:157-189 | One iteration either keeps the loop's description of the pages read or makes the listing unusable |
| CiGate.CompleteInventoryMeans | internal/cireleasegate/cireleasegate.go:152-194 | What passes the running checks is one stable declared total, pages within their size, distinct run IDs, as many as the length of the listing, and only admissible runs |
| CiGate.LatestRun | internal/cireleasegate/cireleasegate.go:152-194 | For arbitrary responses: at most ten reads, of pages 1, 2, 3 and so on of one query; success exactly when every call succeeded, the pages are one complete inventory and an eligible run exists; the result is the eligible run with the highest ID |
| CiGate.HighestIsUnique | internal/cireleasegate/cireleasegate.go:179-184 | In a listing without repeated IDs the highest eligible run is one definite run |
| CiGate.SoundJobPagesMean | internal/cireleasegate/cireleasegate.go:196-218 | Accepted job pages share one total within the bound, and the collected jobs are exactly the jobs on the pages |
| CiGate.ReadJobPage | internal/cireleasegate/cireleasegate.go:199-216 | One iteration of the job loop either keeps the description of the jobs loaded or rules the inventory out |
| CiGate.LoadJobs | internal/cireleasegate/cireleasegate.go:196-218 | At most ten reads of one attempt's jobs; success exactly when the pages read are one complete job inventory, and the result is all of it |
| CiGate.VerifyJobs | internal/cireleasegate/cireleasegate.go:220-244 | Jobs are accepted exactly when all of them succeeded and belong to the run, attempt and commit, IDs and names are pairwise distinct, and every required name is present |
| CiGate.FindLatest | internal/cireleasegate/cireleasegate.go:114-128 | Definition and first listing: it yields the workflow and its latest run exactly when the definition is the active workflow and its listing is usable |
| CiGate.VerifyLatest | internal/cireleasegate/cireleasegate.go:129-149 | Accepts exactly a run that completed successfully, whose jobs were all loaded and accepted, and that the second usable listing still shows as the latest, record for record |
| CiGate.GateDecides | internal/cireleasegate/cireleasegate.go:114-150 | Only the latest run of the first listing can pass at all, and whether it does is decided by the other calls |
| CiGate.VerifyGate | internal/cireleasegate/cireleasegate.go:114-150 | The gate returns a run exactly when its calls establish that this run passed: an active workflow, a usable listing whose highest eligible run completed successfully, a complete accepted job inventory of that attempt, and a second usable listing with the very same record; on failure no run at all passed by these calls |
| CiGate.GateRunIsIdentified | internal/currentci/currentci.go:102-108 | The calls of a passed gate determine its run, whose ID and attempt are positive and whose commit is the requested one, so the caller's second look can never reject |
| CurrentCi.ScanEntries | internal/currentci/currentci.go:235-245 | One pass accepts exactly the tree inventories with distinct nonempty paths, and remembers the entry of the wanted name |
| CurrentCi.PickEntry | internal/currentci/currentci.go:229-255 | Picks the one entry of the wanted name, kind and digest width in a complete unambiguous tree, and fails exactly when there is none |
| CurrentCi.ResolveMain | internal/currentci/currentci.go:203-212 | Reads main once and accepts exactly a reference to one commit under the exact name |
| CurrentCi.DescendTree | internal/currentci/currentci.go:226-256 | The loop over the three components either leads, directory by directory, to the blob's identity, or stops before any source can be resolved |
| CurrentCi.ResolveSource | internal/currentci/currentci.go:214-283 | Succeeds exactly when its six calls lead from main through its commit and three directories to the approved workflow bytes, and returns that commit, tree and blob |
| CurrentCi.SourceDetermined | internal/currentci/currentci.go:130-136 | Git objects being named by their content, two resolutions that see the same commit yield the same source: only a move of main can change it |
| CurrentCi.CheckSubjects | internal/currentci/currentci.go:87-96 | Accepts exactly one nonempty race subject and nine cross-build subjects, all ten pairwise distinct |
| CurrentCi.EstablishedOnce | internal/currentci/currentci.go:97-129 | The calls of a first pass establish at most one source and one run |
| CurrentCi.FindRun | internal/currentci/currentci.go:97-108 | Source and gate together: a source and run are found exactly when the calls determine them, both ways, for every source and run |
| CurrentCi.CheckBothSets | internal/currentci/currentci.go:109-129 | Both signature sets are requested for the very source, run and attempt, in order; uncancelled, it succeeds exactly when both calls did |
| CurrentCi.Establish | internal/currentci/currentci.go:97-129 | Source, gate and both signature sets: a success carries the whole chain, and an uncancelled failure means that the calls made establish nothing |
| CurrentCi.SourceNotConfirmed | internal/currentci/currentci.go:130-136 | A second resolution that fails or differs rules out a confirmation for any run |
| CurrentCi.RunNotConfirmed | internal/currentci/currentci.go:137-143 | A second gate that fails or passes with another identity rules out a confirmation for any run |
| CurrentCi.Confirm | internal/currentci/currentci.go:130-151 | Succeeds exactly when the calls made resolve the same source again, pass the gate with the same run identity again, and read the same main once more |
| CurrentCi.Verify | internal/currentci/currentci.go:83-156 | A success is the exact chain of calls of both passes for ten distinct subjects; an uncancelled failure with distinct subjects means that the calls made are no such chain, for any source and run |
| CiSnapshot.ListedWasRead | internal/cireleasegate/cireleasegate.go:157-189 | Under truthful answers every listed run was, at some instant of the listing, exactly the record that was listed |
| CiSnapshot.InventoryStable | internal/cireleasegate/cireleasegate.go:157-193 | A complete listing over non-atomic pages is the true inventory at every instant from its first read to its last |
| CiSnapshot.LatestBetween | internal/cireleasegate/cireleasegate.go:142-149 | When two complete listings select the same completed run, that run was the latest eligible one at every instant between them |
| CiSnapshot.JobInventoryComplete | internal/cireleasegate/cireleasegate.go:196-218 | When loading ended, the loaded jobs were all jobs of the attempt |
| CiSnapshot.JobsHold | internal/cireleasegate/cireleasegate.go:220-244 | After an accepted load every job of the attempt passes at that instant, and every required job passes from then on |
| CiSnapshot.SameRun | internal/currentci/currentci.go:137-143 | The identity comparison of the two gates implies that they selected the identical record |
| CiSnapshot.MainStayed | internal/currentci/currentci.go:97-151 | Main was at the reported commit at every instant from the first read of main to the last |
| CiSnapshot.ObservationIsStable | internal/currentci/currentci.go:83-156 | The double-collect theorem: if answers are truthful, runs, attempts and jobs only grow and main moves only to fresh commits, then at every instant of an interval containing both signature checks main was at the returned commit and the returned run was its latest eligible, completed, successful run; and once the jobs were loaded every required job had passed |
| RemoteTrace.LaunchIsGuarded | internal/app/remote.go:873-943 | In a lawful trace every launch is preceded, with no process in between, by a listing by the same client that succeeded and advertised the application |
| RemoteTrace.StopIsFinal | internal/app/remote.go:1807-1809 | After a stop condition was observed at a retry decision nothing is executed |
| RemoteTrace.WakesOnce | internal/app/remote.go:813-834 | At most one wake-up packet, and only before anything else |
| RemoteTrace.AuthorizationsAreNotReused | internal/app/remote.go:940-961 | Launches never outnumber successful advertised listings: no listing authorizes two launches |
| RemoteTrace.FailedCheckIsFinal | internal/app/remote.go:953-960 | After a launch the first failing check ends the session: nothing runs after it except the listing of a client that has just replaced the one that failed |
| RemoteSession.ListingCapture.Write | internal/app/remote.go:83-95 | Whatever the chunking, the capture holds the output's prefix up to its limit and reports every byte as written |
| RemoteSession.CaptureAll | internal/app/remote.go:79-99 | The captured text of a whole process output is that output, cut at the limit |
| RemoteSession.DiscoverExcluding | internal/app/remote.go:1151-1171 | Finds the first candidate in selection order that is ready, of the required flavour and not the excluded executable, or none exactly when there is no such candidate |
| RemoteSession.Session.ReconnectStopped | internal/app/remote.go:1807-1809 | The retry decision samples the context as it is now: it says stop exactly for a cancelled context, a cancellation or a deadline, and records it |
| RemoteSession.Session.RebuildStreamPlans | internal/app/remote.go:850-868 | Both plans are replaced together, for the current client, or neither is |
| RemoteSession.Session.Replace | internal/app/remote.go:889-912 | A replacement is recorded, is of the required flavour and another executable than the failed one; otherwise the client stays |
| RemoteSession.Session.TryAnotherStreamClient | internal/app/remote.go:887-917 | A failed check spends the one automatic replacement, and only without a reason to stop; both plans are rebuilt for the replacement or the command is blocked |
| RemoteSession.Session.CheckStreamApplication | internal/app/remote.go:873-923 | One listing, or two when the single replacement is spent on it; success leaves an authorization by the current client as the last execution, with plan, list plan and client in agreement; a failure leaves a failed check, and one that ran into its own deadline fails with an ordinary error, records no stop and spends no replacement, so that a wake retry may follow |
| RemoteSession.Session.AwaitApplication | internal/app/remote.go:924-937 | The first check is repeated at most once per wake retry; an internal failure that was neither cancelled nor stopped has used every retry |
| RemoteSession.Session.LaunchAndReconnect | internal/app/remote.go:940-961 | Every launch is authorized anew, at most one per reconnect and one more; it succeeds exactly when the last process is a successful launch, and without a reason to stop it ends internally only with a failed check or with the last launch allowed |
| RemoteSession.Session.RunStream | internal/app/remote.go:840-961 | At most R+1 launches, at most W+R+1 listings and one more for the one replacement, and nothing else; a stream that never launched and was not stopped used every wake retry |
| RemoteSession.Session.TryAnotherClient | internal/app/remote.go:984-1001 | A control command replaces its client only after its first attempt, only once, only when selected automatically and not stopped, whatever comes of planning for the replacement; afterwards the chance is spent |
| RemoteSession.Session.RunList | internal/app/remote.go:962-1014 | A replacement consumes an attempt: at most max(W+1, 2) executions, at most one replacement, success exactly for a successful listing that advertises a required application; an internal failure without a reason to stop has used every wake retry and the replacement |
| RemoteSession.Session.RunControl | internal/app/remote.go:1015-1056 | Pairing and quitting execute at most two processes, the second only after a replacement, and succeed exactly when the last one did; an internal failure without a reason to stop has used the replacement |
| RemoteSession.Session.Wake | internal/app/remote.go:818-834 | Waking sends one packet and executes nothing |
| RemoteSession.Session.Run | internal/app/remote.go:813-1056 | For every outcome of every process, discovery and cancellation: the trace obeys the laws and begins with a wake-up exactly when one was requested; a stream within the option limits makes at most 6 launches and 12 listings, other operations never launch. After the wake-up succeeded, an internal failure that was neither stopped nor cancelled has used every wake retry and the replacement (listing), the replacement (pairing, quitting), every wake retry (a stream that never launched), or every reconnect (a stream whose last process is a launch); otherwise the last process of the stream is a failed check |
| Evidence.ChecksAreExactlyRequired | internal/evidence/evidence.go:677-721 | Counting the checks and rejecting repeats together force the exact required inventory |
| Evidence.CheckReasons | internal/evidence/evidence.go:869-973 | The pass over the checks is silent exactly when nothing is observed in the future and everything passed |
| Evidence.SessionReasons | internal/evidence/evidence.go:1121-1166 | There is no reason against a session exactly when its capture is verified and past, and profile and measurements meet the minimum |
| Evidence.RecordReasons | internal/evidence/evidence.go:869-973 | There is no reason against completeness exactly when nothing lies in the future, the record is complete apart from time, and the authority is fresh that day |
| Evidence.EvaluateAt | internal/evidence/evidence.go:869-973 | Evaluation is an error exactly for an invalid record, a missing time or a foreign token; otherwise the state is expired, complete, or pending as specified |
| EvidenceSet.LinkReasons | internal/evidence/evidence.go:1044-1076 | There is no reason against a set exactly when the session is bound to these two records, subject and run, is outlived by both, and started after both reviews |
| EvidenceSet.EvaluateSetAt | internal/evidence/evidence.go:995-1119 | A set of three records evaluates to the specified state, and is refused exactly for inputs that no time could make good or a missing time |
| EvidenceSet.ExpiredRecordStaysExpired | internal/evidence/evidence.go:869-973 | A record that has expired stays expired |
| EvidenceSet.CompleteRecordIsConvex | internal/evidence/evidence.go:869-973 | A record complete at two instants is complete at every instant between, through reviews, observations, capture and the calendar freshness of the authority |
| EvidenceSet.ExpiredSetStaysExpired | internal/evidence/evidence.go:995-1119 | A set that has expired stays expired |
| EvidenceSet.CompleteSetIsConvex | internal/evidence/evidence.go:995-1119 | A set complete at two instants is complete at every instant between |
| Text.SortedIsCanonical | internal/evidencev2/policy.go:213-231 | Two strictly sorted lists of the same strings are the same list: a scope has one accepted form |
| Text.ContainsSorted | internal/evidencev2/policy.go:258-261 | Binary search over a strictly sorted list is membership |
| TrustPolicy.ValidateSortedScope | internal/evidencev2/policy.go:213-231 | The two passes accept exactly the nonempty, strictly sorted lists of allowed values |
| TrustPolicy.ValidateKeys | internal/evidencev2/policy.go:128-151 | The loop accepts exactly keys in strict ID order, each valid within the policy's window, with no principal twice in a role and both roles present |
| TrustPolicy.ValidateTrustPolicy | internal/evidencev2/policy.go:83-152 | A policy validates exactly when its base is right and it is either empty and unprovisioned or a valid provision |
| TrustPolicy.KeyIsUnique | internal/evidencev2/verify.go:110-113 | In a valid policy a key ID names one key, so the table built from it is unambiguous |
| TrustPolicy.HasIndependentQuorum | internal/evidencev2/verify.go:281-296 | The double loop finds a lab observer and an independent reviewer with different keys, principals and organizations exactly when there are such two |
| VerifiedSet.CheckSignatureList | internal/evidencev2/parse.go:92-110 | The loop accepts exactly well-formed signatures in strict key order |
| VerifiedSet.ParseSubmission | internal/evidencev2/parse.go:41-127 | Checks the envelope, its signature list, the payload and the records, and returns what the submission denotes |
| VerifiedSet.CheckSignature | internal/evidencev2/verify.go:118-159 | A signature is accepted exactly when its key is a trusted, unrevoked, in-scope key whose window covers the payload, it was made inside every window and after every review, it is genuine and not in the future |
| VerifiedSet.CheckSignatures | internal/evidencev2/verify.go:114-160 | The signer loop succeeds exactly when every supplied signature is good and not in the future, with one signer per signature |
| VerifiedSet.Authenticate | internal/evidencev2/verify.go:98-166 | Policy window, every signature, minimum count and independent pair, in both directions |
| VerifiedSet.CheckEvidence | internal/evidencev2/verify.go:41-94 | Cell, lifetime, exact bytes, record bindings and completeness together, in both directions |
| VerifiedSet.VerifySetAt | internal/evidencev2/verify.go:26-192 | Verification succeeds exactly when the submission is acceptable at that instant, and returns the set that the signed payload denotes |
| VerifiedSet.AcceptanceIsConvex | internal/evidencev2/verify.go:26-192 | For fixed inputs the instants of success form one interval |
| SignedTimeline.VerifiedSetTimeline | internal/evidencev2/verify.go:98-166 | Every verified set obeys one timeline: host and client review, capture start, capture end, session review, every signature, now, session expiry, host and client expiry; with every signature inside its key's window, the payload's lifetime and the policy's window, nested in that order |
| SignedTimeline.VerifiedSetSigners | internal/evidencev2/verify.go:106-166 | The signers of a verified set are one per signature, pairwise distinct, unrevoked keys of the policy in scope, and contain an independent pair |
| Promotion.PromoteAt | internal/evidencev2/promotion.go:82-153 | Promotion succeeds exactly for a promotable set, carries it unchanged, and scores 100 with the four gates passed |
| Promotion.VerifiedSetsPromote | internal/evidencev2/promotion.go:82-167 | A set verified at any instant is promotable at every instant from its creation to its expiry |
| Preparation.PreparedBinds | internal/evidencev2/prepare.go:126-128 | The last comparison of preparation can never fail: a complete set always agrees with the payload prepared from it |
| Preparation.PrepareIdentity | internal/evidencev2/prepare.go:52-89 | Completeness, whole-second timestamps and the identifier, asked for or drawn, in both directions |
| Preparation.PreparedParsesBack | internal/evidencev2/prepare.go:119-122 | Whatever valid payload prepared bytes parse to is the one that was prepared; this is the round trip assumed of the encoding, carried through the parser's own checks |
| Preparation.PreparePayloadAt | internal/evidencev2/prepare.go:34-130 | Preparation succeeds exactly for complete records on whole seconds with a usable identifier whose encoding reads back and matches the expected cell, and returns that encoding |
| Preparation.PreparedBytesVerify | internal/evidencev2/prepare.go:34-130 | Prepared bytes, enveloped with valid signatures and a quorum under a covering policy, verify at an instant exactly when the evidence set is complete then and no signature is in the future |
| JsonWalk.ReadIsSound | internal/evidencev2/parse.go:243-304 | What the walker reads is a tree with distinct keys, no forbidden null and bounded nesting, and the tokens consumed are its serialisation |
| JsonWalk.ReadIsComplete | internal/evidencev2/parse.go:243-304 | Every such tree is read back from its serialisation, whatever follows it |
| JsonWalk.SerialisationIsPrefixFree | internal/evidencev2/parse.go:243-304 | A value's tokens determine the value and where it ends |
| JsonWalk.Decoder.Walk | internal/productionnative/parse.go:114-162 | The recursive cursor walk terminates, consumes exactly one value, and succeeds exactly when there is an acceptable one |
| JsonWalk.Decoder.WalkMembers | internal/productionnative/parse.go:131-150 | The member loop with its set of seen keys agrees with reading members without repetition |
| JsonWalk.Decoder.WalkItems | internal/productionnative/parse.go:151-158 | The element loop agrees with reading items up to the closing bracket |
| JsonWalk.InspectJson | internal/evidencev2/parse.go:228-304 | A token stream is accepted if and only if it is the serialisation of one tree with no repeated key in any object, no null unless allowed, and nesting within the bound |
| JsonWalk.RequireExactKeys | internal/evidencev2/parse.go:306-329 | The members of an object are accepted exactly when they are the required keys |
| ExactJson.TableExists | internal/exactjson/exactjson.go:142-189 | A field table exists exactly when no member name is ambiguous, embedded structs included |
| ExactJson.TableMeaning | internal/exactjson/exactjson.go:142-189 | The table holds exactly the listed members, each with its own definition |
| ExactJson.FieldTable.Collect | internal/exactjson/exactjson.go:150-189 | Filling the table in place, recursively, agrees with the flattened field list and fails exactly on an ambiguous name |
| ExactJson.ValidateValue | internal/exactjson/exactjson.go:52-135 | In whatever order members are visited, a value is accepted exactly when it conforms to the type within the depth that is left |
| ExactJson.ValidateChildren | internal/exactjson/exactjson.go:79-87 | Stopping at the first member that does not fit accepts exactly when all fit, whatever the order |
| ExactJson.ValidateKeys | internal/exactjson/exactjson.go:30-50 | A document is accepted exactly when it conforms to the destination type within 128 levels |
| ExactJson.DecodersAgree | internal/config/config.go:192-212 | On every accepted document without repeated keys, the case-folding, last-wins, merging decoder and exact-name lookup build the same value at every level of nesting |
| ExactJson.FoldingDecidesOtherwise | internal/exactjson/exactjson.go:1-4 | Without validation they differ: a member that differs only in case lands in a field that exact lookup leaves unset |
| Directory.Dir.Link | internal/app/evidence.go:481-484 | A link never replaces: it is made only if the name is free at that moment, and the record of it says that it was |
| TemplateSet.CleanupOne | internal/app/evidence.go:413-425 | One item of the clean-up: a published name is removed only when it was just seen to be the staged file, a temporary name always, and in a quiet directory nothing else is disturbed |
| TemplateSet.RemoveTarget | internal/app/evidence.go:416-420 | A published name is removed only right after it was seen to be the staged file |
| TemplateSet.Cleanup | internal/app/evidence.go:413-425 | After a complete clean-up of a quiet directory nothing of the staged items is left but what is to be kept |
| TemplateSet.CreateTemp | internal/fileinput/fileinput.go:112-148 | At most one hundred exclusive attempts, each on record; success binds a new name to a new empty file and nothing else, and where nothing fails without a reason it gives up only after a hundred taken names |
| TemplateSet.StageOne | internal/app/evidence.go:438-476 | Staging one file keeps every existing name and content, and when it succeeds the new inode holds exactly the template's bytes |
| TemplateSet.NoneExists | internal/app/evidence.go:427-436 | Looks at every destination and changes nothing: in a quiet directory a positive answer means that none of the names is there, and with no faults it is positive for new and different names |
| TemplateSet.StageAll | internal/app/evidence.go:438-476 | After staging every file, or stopping at one, the directory is described exactly: what was there, and the temporary names |
| TemplateSet.LinkAll | internal/app/evidence.go:478-487 | Linking binds the final names one by one and keeps the description of the directory exact at every stop |
| TemplateSet.Publish | internal/app/evidence.go:406-490 | All or nothing: in a quiet directory success binds every name to exactly its bytes, failure restores the directory, and no other name or content changes; if any name is already there the directory is left exactly as it was, whatever else fails; under interference links go only to free names and only own files are removed, relative to the last inspection; with no faults it succeeds exactly when the names are new and all different |
| RootedOpen.FileSystem.VerifyAll | internal/fileinput/fileinput.go:390-394 | Every parent is seen again, standing as the same directory |
| RootedOpen.FileSystem.Enter | internal/fileinput/fileinput.go:352-382 | A component entered is seen, at the end, bound in its pinned parent to the directory that was opened |
| RootedOpen.FileSystem.Descend | internal/fileinput/fileinput.go:345-386 | Every component is inspected, opened and inspected again, relative to the directory pinned before it; at the last moment the regular file was bound to the last name, and every parent had been seen before |
| RootedOpen.FileSystem.Open | internal/fileinput/fileinput.go:330-427 | In every interleaving with a writer a returned file has a safe path, was the regular file bound to the last name at one moment before the open, and is regular and where the path leads at the very end; every parent was seen as the same directory before that moment, between it and the open, and after the open. With no writer and no faults it succeeds exactly when the path is a regular file below real directories |
| Artifacts.ValidateGlobalNames | internal/evidence/artifacts.go:324-339 | Accepts exactly names distinct whatever their case and a total within the bundle limit; the running total never exceeds the limit |
| Artifacts.RecordDeclaresValidly | internal/evidence/evidence.go:1168-1193 | A valid record declares artifacts whose names are bounded ASCII names, distinct whatever their case, with positive sizes that fit one bundle |
| Artifacts.FoldIsLowerCase | internal/evidence/artifacts.go:153-155 | Declared names that fold alike have the same lower-case form, so the two comparisons of the code agree on them |
| Artifacts.Bundle.ReadDirectory | internal/evidence/artifacts.go:191-235 | Reads distinct names up to the limit, and all of them when they fit |
| Artifacts.HasCollision | internal/evidence/artifacts.go:147-157 | Reports exactly an entry that is no basename or two different ones that fold alike |
| Artifacts.OneTooMany | internal/evidence/artifacts.go:140-144 | Among one more distinct entries than expected names, one is unexpected |
| Artifacts.EntrySetDecides | internal/evidence/artifacts.go:140-189 | What the first names of a directory decide, one more than expected, holds of all its names, however many there are |
| Artifacts.Bundle.VerifyEntrySet | internal/evidence/artifacts.go:140-189 | With a writer about, success means that the directory listed exactly the declared names at one moment and that each was then seen to be a plain file; without a writer and faults it succeeds exactly when the full entry set is the declared names, all plain files, since these never collide under case folding |
| Artifacts.ExpectedNeverCollides | internal/evidence/artifacts.go:147-157 | The collision check never fires on declared names: they are basenames, and no two fold alike |
| Artifacts.Bundle.VerifyFile | internal/evidence/artifacts.go:237-297 | Success means that between two sightings of the name as one plain file of the declared size that very file held bytes of the declared size and digest; without a writer and faults it succeeds exactly when the name holds them |
| Artifacts.SizeOfDistinct | internal/evidence/artifacts.go:78-88 | Distinct declared names never weigh more than the whole declaration |
| Artifacts.RunningTotalFits | internal/evidence/artifacts.go:78-88 | The size check inside the loop can never fire |
| Artifacts.Bundle.VerifyFiles | internal/evidence/artifacts.go:78-88 | The loop over the names checks every file, and without a writer and faults it succeeds exactly when every file has its size and digest |
| Artifacts.Bundle.VerifyBundle | internal/evidence/artifacts.go:46-101 | Whatever a writer does, acceptance means an exact entry set at a first moment, every declared file checked after it, and an exact entry set again at a moment after that; without a writer and faults a directory is accepted exactly when it holds the declared files, byte for byte, and nothing else |
| Staging.StagedPathsDiffer | internal/nativepackage/staging.go:375-383 | The staged paths of a valid manifest are pairwise distinct and safe, so the duplicate and safety checks cannot fire |
| Staging.Above | internal/nativepackage/staging.go:384-389 | The upward walk from a path collects exactly its proper prefixes, the root included |
| Staging.Collect | internal/nativepackage/staging.go:369-391 | The expected files are the payloads by staged path, and the expected directories their ancestors |
| Staging.ReadStagedFile | internal/nativepackage/staging.go:460-540 | Reads exactly the safe paths that are plain files within the limit, looking at every component |
| Staging.VerifyPayloads | internal/nativepackage/staging.go:393-424 | In whatever order the files are visited, they are accepted exactly when every payload holds its size, digest and mode |
| Staging.VerifyTree | internal/nativepackage/staging.go:546-586 | The walk accepts exactly trees whose directories and plain files are all expected and that hold nothing else |
| Staging.VerifyStagingRoot | internal/nativepackage/staging.go:344-432 | Accepts exactly the trees whose files are the canonical manifest and its payloads with declared size, digest and mode and whose directories are exactly their ancestors, and returns that manifest |
| Staging.DraftIsValidWhenItFits | internal/nativepackage/staging.go:155-230 | For good inputs the built manifest validates exactly when every staged size is within the limit |
| Staging.Build | internal/nativepackage/staging.go:126-231 | Succeeds exactly for a canonical Unix source, a valid archive digest, a supported family and sizes within the limit, with a valid manifest that carries the archive's own sizes and digests |
| Compat.SameSetIsEquality | internal/compat/manifest.go:539-569 | For lists without repetition the one-sided membership test is equality of sets |
| Compat.SameSet | internal/compat/manifest.go:539-569 | The set comparison of the code accepts exactly equal lengths with every wanted value present |
| Compat.ValidateBackend | internal/compat/manifest.go:362-466 | Accepts exactly the valid backends |
| Compat.ValidateIdentity | internal/compat/manifest.go:468-525 | Accepts exactly the kind, mode, platforms and locked-down state that the backend's identity prescribes |
| Compat.NoBackendMissing | internal/compat/manifest.go:337-358 | As many distinct valid backends as there are known ones cannot miss any: the last loop never rejects |
| Compat.Validate | internal/compat/manifest.go:266-360 | The section-by-section validation accepts exactly the valid manifests |
| Compat.OldestCheck | internal/compat/freshness.go:39-46 | The loop computes the earliest check date, starting from the manifest's own |
| Compat.FreshnessAt | internal/compat/freshness.go:32-74 | The report is exact: state and expiry are those of the calendar day, and the late loop for future sources is unreachable |
| Compat.FreshExactly | internal/compat/freshness.go:32-74 | A manifest is fresh exactly from the first instant of its date to the end of the reported expiry day |
| Compat.FreshnessOnlyAges | internal/compat/freshness.go:32-79 | Over time the state only moves from future to fresh to stale |
| Compat.ExternalOnlyRestricts | internal/compat/policy.go:96-173 | For every external document an allow with it is an allow without it; whatever it changes, it changes to a denial |
| Compat.AllowedExactly | internal/compat/policy.go:96-173 | A launch is allowed exactly when the fresh authority officially supports the route on that platform and nothing restricts it |
| Compat.RemoteRoutesAreDenied | internal/compat/manifest.go:468-525 | The physical macOS and hardware KVM routes are denied under every valid authority at every time |
| Compat.UnknownIsDenied | internal/compat/policy.go:96-173 | Unknown platforms, architectures and backends are denied under every valid authority |
| Compat.EvidenceIsAuthoritative | internal/compat/policy.go:96-243 | The evidence of every verdict, allowed or denied, is exactly the URLs of the authority's own sources for the backend asked for; only a policy locked by an invalid external document shows none |
| Splitting.SplitOfJoin | internal/ciattestation/ciattestation.go:552-555 | Lines without separators are found again in their join |
| Checksums.VerifyReleaseChecksums | internal/ciattestation/ciattestation.go:540-569 | A text is accepted if and only if it is, byte for byte, the rendering of a nonempty map of digests as sorted `digest *./name` lines with a final newline |
| Checksums.ChecksumTextIsUnique | internal/ciattestation/ciattestation.go:540-569 | No two texts are accepted for one map |
| Checksums.ChecksumTextExists | internal/ciattestation/ciattestation.go:540-569 | Every map of lowercase digests under nonempty names without line breaks has an accepted text |
| HostEndpoint.PortsAreCanonical | internal/config/config.go:554-575 | Ports are accepted exactly for the canonical decimals of 1 to 65535 |
| HostEndpoint.EscapedDecodes | internal/config/config.go:577-597 | Escaping the zone delimiter of an address with at most one delimiter and decoding it again gives the address back (section 2 of RFC 6874) |
| HostEndpoint.CheckName | internal/config/config.go:533-543 | The loops over labels and characters accept exactly the valid names |
| HostEndpoint.ParseHostEndpoint | internal/config/config.go:460-545 | Parsing returns an endpoint exactly when the text is acceptable and denotes it: a bracketed IPv6 literal with an optional port, a bare one, or a name with an optional port; so a text denotes at most one endpoint |
| HostEndpoint.EndpointsRoundTrip | internal/config/config.go:460-597 | For every accepted text the canonical text of its endpoint is accepted, whenever it fits 253 bytes, and denotes the same endpoint |

## Left out

- GitHub: processes, response decoding, the fifteen-minute and other time limits are reduced to a call that answers or fails; cancellation is an arbitrary choice at the points where the code looks.
- Required job names: the table of the release contract is a parameter of the gate, by commit.
- Evolution of CI state: that a completed attempt and a completed job are final, that runs, attempts and jobs are never deleted, and that main only moves to fresh commits are assumptions of `CiSnapshot`, not facts about GitHub. A page may list any true records in any order.
- The instant at which the loaded jobs are complete is the end of loading; jobs added to the attempt afterwards are not excluded, so `CiSnapshot.ObservationIsStable` claims only the required jobs from then on.
- Remote: the unpair operation (a single execution without retries), dry runs, output, warnings, timers and the selection of options before execution are not modelled. Plans carry the client and the operation; host and route are fixed.
- Remote: whether a listing advertises an application is an uninterpreted predicate of the captured text, the application and the client's flavour.
- Evidence records: fields whose text matters only for being well formed are joined in one flag, enumerated texts are datatypes with an unknown case, and floating-point measurements are reals.
- Evidence.EvaluateAt: does not model the texts of the reasons, only which reasons there are.
- Cryptography, base64url, regular expressions and JSON encoding are uninterpreted; the facts used about them are the shapes of digests and identifiers and that encoding a payload neither loses a valid one nor makes a valid one out of another.
- Preparation.PreparedParsesBack: does not derive the round trip of the payload's JSON encoding, which is one of those facts.
- VerifiedSet.VerifySetAt: checks that only accept or refuse are ordered as in the code up to independent parsing steps; error messages are not modelled.
- JSON lexing, commas and colons, UTF-8 and numbers are below the token level. A walker that does not compare the closing delimiter, relying on the decoder to do so, is not modelled separately.
- ExactJson: recursive destination types and embedded unexported structs are not modelled; number ranges and custom unmarshalers are left to the decoder in both decoders alike.
- Inodes are not reused: a file that was seen keeps its number. The code compares identities and has the same limit.
- TemplateSet.Publish: does not model an atomic check and removal, because the code has none: a name may change hands between the last inspection and the removal, and the removal of temporary names is not preceded by any inspection.
- TemplateSet: creation of the directory itself and its parents, and file modes.
- RootedOpen.FileSystem.Open: a path that is inspected or opened as a whole is resolved at one instant; where it crosses a link it may lead anywhere. The safety of the path is a predicate of its components.
- Bounded reading of files, creation of directory trees and the opening of unrooted paths repeat the patterns of the modelled openings.
- Artifacts.Bundle.VerifyBundle: a listing of names and a read of a file each happen at one instant, and the identity of the held directory itself is not compared; sorting entries only fixes which error is reported, and paths are separated by slashes.
- Staging.VerifyStagingRoot: does not model a writer or cancellation; strict decoding of the manifest is a parameter, its validation and canonical form are not.
- Staging: paths are sequences of components, so slash handling of install paths is not modelled.
- Compat: text fields without a further role are one flag; URLs are strings.
- HostEndpoint.ParseHostEndpoint: texts are sequences of characters, so invalid UTF-8 does not arise; which texts are IPv6 literals is a parameter.
- Command-line parsing, help, output, probing, diagnostics, the KVM launcher, the readiness commands and the other attestation packages: no property beyond field equality or a repeat of the protocols above.

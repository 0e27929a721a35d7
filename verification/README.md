# Verified model of the engine, loader and world-plan cores

These Dafny modules model the repository's state machines, validators and binary
formats, and prove what holds of them over every input, run or interleaving.
`dafny verify dfyconfig.toml` checks everything.

**Machine code.** The loader emits exact x86 byte sequences and, separately,
states which registers, flags, stack words and buffers a stopped thread must
show. `X86` decodes and executes the instructions those bytes use (flags after
section 3.4.3.1 of volume 1 of the Intel Software Developer's Manual); `X86Rules`
gives one rule for each instruction form. On top of that the emitted bytes are
decoded and run: the word-at-a-time string copy with its false-positive probe
(`CwdCopy*`), the SEH prologue and its removal (`CwdSeh`, `FileManagerReady`,
`SehRoundTrip`), the scan and suffix of the current directory (`FileManagerScan`,
joined to the copy by `DirectoryHandOver`),
the detoured switch (`ApplicationRouting`) and the aligned allocation, from its
entry through the CRT's heap function to the API and back (`CdStream*`). The
repository's predicates are proved of the states the bytes really reach.
`StopSamples` says which other samples such a predicate lets through (those that
agree in the checked registers and flags, and no more), and `Extents` what the range
and overlap tests mean byte by byte. `Words` defines the bitwise operators bit by bit.

**Protocols.** `LeaseAuthority`, `MappingLedger`, `PlatformSuppression` and
`BootstrapSession` each hold a class that follows the source method by method,
proved equal to a step function of an abstract state, and theorems over runs of
that step function. The session has a second model in which every thread advances
one memory access at a time. What the step functions answer is stated again without
them: `LeaseHistory` answers every proposal and renewal from the events so far,
`SuppressedCall` derives the replacement context from executing the suppressed CALL,
and the ledger's entries are the calls that made them. `BootstrapLifecycle` relates
the session to the validator of its eight-call transcript.

**Formats.** `PeImage` and `PeOffsets` model the bounded PE32 parser and its
address translation ("Optional Header (Image Only)" and "Section Table (Section
Headers)" of the Microsoft PE Format specification). `PeWriter` lays the same files
out by concatenation, `PeRoundTrip` shows what the parser makes of them, and
`PeDissection` that it accepts nothing else. `ProfileGate` has the two gates of
an observed profile. `Relocation`, `BootstrapAudit` and `BootstrapMask` cover
HIGHLOW relocation ("Base Relocation Types" of the same specification) from the
audited relocation directory to the prefix the loader expects; `AuditMeaning` gives
the audit's tests in terms of the bytes they are about.
`LaunchSpec` says what an environment block is, `LaunchContext` builds it and
scans it back, and `LaunchGrammar` has the grammar of its paths and entries.

**World plans.** `WorldPlanSort` and `WorldPlanLayers` treat the layered sort as a
function of the graph, `WorldPlanClosure` the spread of requiredness,
`WorldPlanInput`, `WorldPlanIssues`, `WorldPlanValidator` and `WorldPlanMeaning` the
whole validation: every diagnostic it raises, and what a valid plan is in terms of
its definitions. `WorldPlanPatterns` has the three regular expressions and their
languages, `WorldPlanCauses` the faults of a plan, of which the diagnostics are
exactly the reports, and `WorldPlanExample` a family of valid plans.

Conventions. Machine integers are bounded integers with the wrap written out. A
pointer, a clock reading, a hash, an API answer or a scheduling choice is a
parameter. Arrays that a function only fills and returns are sequences. Dictionary
enumeration is an arbitrary choice, and library sorts are small insertion sorts or
are specified by their result.

Three places where the code is not what a reader might expect:

- The name patterns of the plan validator end in `$`, which also matches in front
  of a final line feed. `WorldPlanInput.LineFeedAccepted` and
  `WorldPlanInput.HiddenSlash` name accepted identifiers that the messages call
  invalid; `WorldPlanInput.IdentifierCharacters` and
  `WorldPlanInput.AssetPathEnds` say exactly when the promise holds.
- Relocating to a base and from there to another is relocating to the second one,
  but the second step is accepted only if the intermediate base is aligned
  (`Relocation.RelocationComposes`).
- The bounds re-check of the allocation layout
  (`src/engine/loader/cd_stream_allocation.cpp:22`) can never fire
  (`CdStreamAllocation.RoundsUp`).

## Model

| member | source | states |
|---|---|---|
| CwdCopy.ProbeMeaning | src/engine/loader/cwd_copy.cpp:31 | the 0x7efefeff/0x81010100 test is zero exactly when the first three bytes are nonzero and the last is neither zero nor 0x80, so 0x80 is its one false positive |
| CwdCopyLoop.LeadLoop | src/engine/loader/cwd_copy.cpp:31 | from any source alignment and any number of bytes already copied, the byte loop ends in the return with the whole string copied |
| CwdCopyLoop.WordLoopEnds | src/engine/loader/cwd_copy.cpp:31 | from any multiple of four, the word loop with its probe, false positives and four tails ends in the return with the whole string copied |
| CwdCopyRun.CopierRuns | src/engine/loader/cwd_copy.cpp:29-31 | for every NUL-terminated string, any alignment and disjoint ranges, executing the copier's bytes returns the destination and changes exactly length+1 destination bytes and the saved EDI slot |
| CwdCopyFrame.CopyBuffer | src/engine/loader/cwd_copy.cpp:50-59 | accepts exactly the buffers that equal the old ones with the terminated source laid over them from offset 4 |
| CwdCopyFrame.HelperCopies | src/engine/loader/cwd_copy.cpp:24-49 | from the API return the helper's bytes run through the five stops with the registers and flags demanded at each, the copied buffer as demanded, and the source unchanged |
| StopSamples.CopySamples | src/engine/loader/cwd_copy.cpp:34-49 | beside an accepted sample exactly those are accepted that agree with it in the checked registers and flags of the stop |
| StopSamples.CopyAdmits | src/engine/loader/cwd_copy.cpp:36-40 | the states the copy is admitted from: the source in the helper's own buffer, no byte of it in the destination |
| StopSamples.CopyBufferMeans | src/engine/loader/cwd_copy.cpp:50-59 | the buffer check demands the guard bytes, the string with its NUL, and the old bytes behind |
| FrameTarget.CallReachesTarget | src/engine/loader/frame_target.cpp:4-15 | a call site that passes the specification check decodes to a CALL of exactly the declared target |
| Extents.CallSiteMeans | src/engine/loader/frame_target.cpp:4-15 | a call site is accepted exactly when it and its target lie in an aligned image without a common byte and its bytes are the opcode and the distance |
| CwdSeh.SubFlagFormulas | src/engine/loader/cwd_seh.cpp:45-49 | the closed formulas for the flags of SUB ESP,12 are the processor's flag definitions |
| CwdSeh.StagesRun | src/engine/loader/cwd_seh.cpp:10-17 | the CALL, the wrapper and the prologue run to their three stops with the given registers, and the stack window and thread block sampled there are the stated ones |
| CwdSeh.PrologueRuns | src/engine/loader/cwd_seh.cpp:34-64 | from every admitted origin the three stops satisfy the frame and memory predicates, and memory outside the stack window and the thread block is untouched |
| StopSamples.SehSamples | src/engine/loader/cwd_seh.cpp:42-52 | beside an accepted sample exactly those are accepted that differ in the resume flag at most |
| StopSamples.OriginMeans | src/engine/loader/cwd_seh.cpp:34-38 | an origin has its frame inside the stack, the thread block away from the ends of memory, and the handler record, if any, above the frame |
| Extents.PrologueMeans | src/engine/loader/cwd_seh.cpp:5-31 | the specification places two CALLs, the code, the scope table and the handlers inside one image |
| FileManagerReady.ReadyToApi | src/engine/loader/file_manager_ready.cpp:23-46 | wrapper tail, cleanup and unlock bytes reach the API with stops 1 and 2 as demanded and exactly the stated stack words written |
| FileManagerReady.FrameRemoved | src/engine/loader/file_manager_ready.cpp:26-48 | from the API return, the cleanup, tail and epilogue bytes reach stops 4 to 6 as demanded and put the previous exception head back |
| FileManagerScan.ScansToNul | src/engine/loader/file_manager_entry.cpp:11-12 | the scan loop stops on the terminator of any directory of up to 126 bytes and touches no memory |
| FileManagerScan.DirectoryCompleted | src/engine/loader/file_manager_ready.cpp:36-58 | for every length from 3 to 126, stops 3 to 9 are as demanded, and the final buffer is the old one with separator and terminator behind the name, inside its 128 bytes |
| StopSamples.ReadySamples | src/engine/loader/file_manager_ready.cpp:36-50 | beside an accepted sample exactly those are accepted that agree with it in the checked registers and control flags of the stop |
| StopSamples.ReadyBufferMeans | src/engine/loader/file_manager_ready.cpp:51-58 | the buffer check demands the old bytes with the string's NUL replaced by a backslash and a NUL |
| DirectoryHandOver.CopiedIsReady | src/engine/loader/loader_observation.cpp:1883 | a buffer that passes the copy check passes the ready check as its own starting point |
| DirectoryHandOver.CopiedIsDirectory | src/engine/loader/cwd_copy.cpp:50-59 | in mapped memory such a buffer is a directory the scan and suffix code can start on |
| DirectoryHandOver.FinishedDirectory | src/engine/loader/file_manager_ready.cpp:51-58 | both checks together leave exactly one final buffer: the source text, the separator and a terminator, and the bytes from before the copy everywhere else |
| SehRoundTrip.WrapperBalanced | src/engine/loader/file_manager_ready.cpp:32-48 | whatever ran in between, if the frame words survive, the epilogue returns behind the wrapper's CALL with ESP, EBX, ESI, EDI, EBP and the thread block as before the prologue |
| ApplicationRouting.Layout | src/engine/loader/application_routing.cpp:5-23 | accepts exactly the specifications whose eight spans are in range and disjoint, whose indices are below 11 and whose targets are in range |
| Extents.SwitchMeans | src/engine/loader/application_routing.cpp:5-23 | accepted means: one image, the handler behind the dispatcher's twelve bytes, event 24 at the initializer's CALL, and eight pieces in the image without a shared byte |
| ApplicationRouting.RoutingDecodes | src/engine/loader/application_routing.cpp:28-45 | the patched bytes decode to the seven instructions of entry, detour and indirect jump with the right displacements |
| ApplicationRouting.Routes | src/engine/loader/application_routing.cpp:28-45 | for every accepted specification and every 32-bit event, execution lands on the target the tables name, with only EAX and flags changed |
| ApplicationRouting.Event24 | src/engine/loader/application_routing.cpp:51-60 | event 24 passes its four stops with the register and stack contents demanded at each |
| StopSamples.RoutingSamples | src/engine/loader/application_routing.cpp:51-60 | beside an accepted sample only those with the same registers and stack words are accepted |
| StopSamples.RoutingAdmits | src/engine/loader/application_routing.cpp:51-60 | the states and the two return addresses the switch is entered with |
| CdStreamAllocation.RoundsUp | src/engine/loader/cd_stream_allocation.cpp:9-23 | the masked address is a multiple of the alignment, leaves room for the metadata word and for 2048 bytes, without 32-bit wrap |
| CdStreamAllocation.AlignedUnique | src/engine/loader/cd_stream_allocation.cpp:21 | there is only one such address |
| CdStreamAllocation.Layout | src/engine/loader/cd_stream_allocation.cpp:18-24 | succeeds exactly when alignment and raw address are admissible, and then returns that address |
| CdStreamHeap.AllocationDecodes | src/engine/loader/cd_stream_allocation.cpp:42-74 | the generated bytes of routine, malloc, new-handler variant, heap function, prologue and epilogue decode to the listed instructions, each CALL with its target |
| CdStreamHeap.RoundingKeeps | src/engine/loader/cd_stream_allocation.cpp:14-17 | for every admitted alignment the rounding to 16 bytes in heap mode 3 leaves the size as it is |
| CdStreamHeap.ToHeapApi | src/engine/loader/cd_stream_allocation.cpp:14-36 | in every admitted request, from its entry the routine runs through stops 2 to 6 as demanded, stop 4 exactly in mode 3; the branch flags are as the observer checks, the handler record is linked, and the stack the API sees is exactly the stated one |
| CdStreamReturn.ApiLeavesFrame | src/engine/loader/loader_observation.cpp:1643-1675 | an API that leaves the frame, all above it and the thread block alone keeps every word the return path reads |
| CdStreamReturn.FromHeapApi | src/engine/loader/cd_stream_allocation.cpp:25-41 | from the API return with an accepted block, stops 8 to 10 are as demanded, the thread block is as before the routine, the metadata word names the raw block, and nothing else outside block, stack window and thread block changes |
| CdStreamAllocation.AlignedReturn | src/engine/loader/cd_stream_allocation.cpp:38-41 | from any state at stop 8 the tail of the aligned routine reaches stops 9 and 10 as demanded, stores the raw address in the metadata word and writes nothing outside the block |
| StopSamples.AllocationSamples | src/engine/loader/cd_stream_allocation.cpp:25-41 | beside an accepted sample exactly those are accepted that agree with it in the checked registers and flags of the stop |
| StopSamples.AllocationAdmits | src/engine/loader/cd_stream_allocation.cpp:25-34 | the states the routine is entered with; the alignment is a power of two from 512 to 65536 |
| Lease.LeaseAuthority.constructor | src/core/lease_authority.cpp:6-10 | a new authority has the given entity and stamp, all counters at zero, no fence and no grant |
| Lease.LeaseAuthority.Open | src/core/lease_authority.cpp:6-10 | construction fails exactly for an invalid entity or clock domain |
| Lease.LeaseAuthority.Sample | src/core/lease_authority.cpp:12-21 | a fence hides the clock; a domain change or step back fences and drops the grant; otherwise the stamp advances |
| Lease.LeaseAuthority.Issue | src/core/lease_authority.cpp:23-40 | result and new state are the abstract issue step, including owner exhaustion and deadline overflow |
| Lease.LeaseAuthority.Accept | src/core/lease_authority.cpp:42-58 | result and new state are the abstract accept step, checks in order |
| Lease.LeaseAuthority.Renew | src/core/lease_authority.cpp:60-79 | result and new state are the abstract renew step |
| Lease.LeaseAuthority.Revoke | src/core/lease_authority.cpp:81 | drops the grant and nothing else |
| Lease.LeaseAuthority.SuspendOrResume | src/core/lease_authority.cpp:82 | fences and drops the grant |
| Lease.LeaseAuthority.RecoverAfterReadiness | src/core/lease_authority.cpp:83-90 | lifts the fence and drops the grant exactly when the clock has a domain |
| LeaseRuns.ReachableIsSound | src/core/lease_authority.cpp:12-90 | in every reachable state a live grant is unfenced, of the newest owner, in the last stamp's domain, and ends at most 2,000,000 behind the last stamp |
| LeaseRuns.AcceptedIncrease | src/core/lease_authority.cpp:23-58 | over any run and any clock the (owner, sequence) pairs of accepted proposals strictly increase, so nothing is accepted twice |
| LeaseRuns.AcceptanceIsJustified | src/core/lease_authority.cpp:12-79 | every acceptance has exactly one applied issue behind it, whose session, revisions and mask the proposal fits and whose owner is the number of grants so far; nothing in between ends the lease, and the stamp lies within 2,000,000 of the last renewal |
| LeaseRuns.JustifiedIsAccepted | src/core/lease_authority.cpp:12-79 | the converse: a proposal that repeats an undisturbed issue, with its owner number, a nonzero contained mask, stamped in order within 2,000,000 of the last renewal and with a sequence above all accepted since, is accepted |
| LeaseRuns.FencedUntilRecovered | src/core/lease_authority.cpp:14-90 | behind a fence nothing is issued, renewed or accepted until a recovery |
| LeaseHistory.ProposalAnswered | src/core/lease_authority.cpp:42-58 | every proposal of a run is answered from the events alone: the live issue, its last renewal and the last accepted sequence decide the result |
| LeaseHistory.RenewalAnswered | src/core/lease_authority.cpp:60-79 | so is every renewal |
| LeaseHistory.RenewalsIncrease | src/core/lease_authority.cpp:70-74 | over any run the (owner, number) pairs of accepted renewals strictly increase |
| LeaseHistory.IssueAnswered | src/core/lease_authority.cpp:23-33 | an issue is granted exactly to an applied participant with nonzero session, revisions and mask, unfenced, on a clock in step, while owners and microseconds last |
| LeaseHistory.FirstGrant | src/core/lease_authority.cpp:6-40 | the first grant of a new authority is to owner 1, with both counters at zero |
| LeaseHistory.LiveMeans | src/core/lease_authority.cpp:12-90 | a grant is live exactly when some issue with its last renewal stands undisturbed |
| LeaseHistory.FencedExactly | src/core/lease_authority.cpp:12-90 | the fence is up exactly when some event tripped it and no recovery followed |
| MappingLedger.LoaderMappingLedger.Admit | src/engine/loader/loader_mapping_ledger.cpp:10-20 | result and new history are the abstract admission; a refusal changes nothing |
| MappingLedger.LoaderMappingLedger.Retire | src/engine/loader/loader_mapping_ledger.cpp:21-32 | result and new history are the abstract retirement; a refusal changes nothing |
| MappingLedger.LoaderMappingLedger.Active | src/engine/loader/loader_mapping_ledger.cpp:33-35 | answers the abstract query |
| LedgerRuns.EveryRunIsChronicle | src/engine/loader/loader_mapping_ledger.cpp:10-32 | after any calls the history is a chronicle: ids 1..count, events ordered, lifetimes of one base disjoint |
| LedgerRuns.AdmitsWhen | src/engine/loader/loader_mapping_ledger.cpp:10-15 | an admission succeeds exactly for a base that is not live, in event order and with room; a refusal changes nothing |
| LedgerRuns.RefusalTellsWhy | src/engine/loader/loader_mapping_ledger.cpp:10-32 | a refused call names the first of its limit, base, order and liveness faults |
| LedgerRuns.AdmitRefines | src/engine/loader/loader_mapping_ledger.cpp:16-19 | a successful admission binds the base to a fresh id in the map of live bases, and changes no other binding |
| LedgerRuns.RetireRefines | src/engine/loader/loader_mapping_ledger.cpp:21-32 | a retirement removes base from the map exactly when it is there, and returns the id it had |
| LedgerRuns.ActiveIsLastMove | src/engine/loader/loader_mapping_ledger.cpp:33-35 | a query holds exactly when that admission is the base's last successful transition |
| LedgerRuns.IdsAreFresh | src/engine/loader/loader_mapping_ledger.cpp:16-18 | an id is never given out twice in a run |
| LedgerRuns.AdmissionRecorded | src/engine/loader/loader_mapping_ledger.cpp:16-19 | a successful admission stays on record, under the id it returned, with its base and event |
| LedgerRuns.RetirementRecorded | src/engine/loader/loader_mapping_ledger.cpp:26-31 | a successful retirement stays on record in the entry it closed, with its event |
| LedgerRuns.RecordsAreCalls | src/engine/loader/loader_mapping_ledger.cpp:10-32 | no entry and no unload event is on record without the call that made it |
| LedgerRuns.CountsAreSuccesses | src/engine/loader/loader_mapping_ledger.cpp:18-28 | count is the number of successful admissions and the unload count that of successful retirements |
| PlatformSuppression.SuppressionTransaction.Apply | src/engine/loader/platform_suppression.cpp:17-37 | result, transaction and thread are the abstract apply step over an arbitrary port |
| PlatformSuppression.SuppressionTransaction.Restore | src/engine/loader/platform_suppression.cpp:38-45 | result, transaction and thread are the abstract restore step |
| SuppressionRuns.EveryRunIsConsistent | src/engine/loader/platform_suppression.cpp:17-45 | over any calls and any port, exactly the replacement and then the original without DR6 have been asked for, as the flags say, and a verified context is really in the thread |
| SuppressionRuns.AtMostTwoWrites | src/engine/loader/platform_suppression.cpp:17-45 | no sequence of calls asks for more than two contexts to be written |
| SuppressionRuns.ApplyTrue | src/engine/loader/platform_suppression.cpp:27-36 | success means the thread was as expected before and is exactly the replacement now |
| SuppressionRuns.ApplyFalse | src/engine/loader/platform_suppression.cpp:19-35 | failure means this call wrote nothing or a restore was attempted |
| SuppressionRuns.RestoredIsOriginal | src/engine/loader/platform_suppression.cpp:38-45 | restored means the thread is the context first met, with DR6 cleared |
| SuppressionRuns.AppliesOnce | src/engine/loader/platform_suppression.cpp:19 | after one apply every later one is refused and changes nothing |
| SuppressedCall.ReplacementIsReturn | src/engine/loader/platform_suppression.cpp:27-30 | executing the six-byte CALL and any four-argument function that returns zero leads exactly to the replacement context |
| SuppressedCall.AtCallMeans | src/engine/loader/platform_suppression.cpp:20-24 | the precondition holds exactly for a context that stands at the CALL with an aligned stack, TF and DF clear, and breakpoint 0 set there and hit |
| SuppressedCall.ApplySucceedsExactly | src/engine/loader/platform_suppression.cpp:17-37 | an apply succeeds exactly on a fresh transaction when the thread is read as expected and the replacement is written and read back |
| SuppressedCall.ApplyTellsWhy | src/engine/loader/platform_suppression.cpp:19-35 | any other apply of a fresh transaction records the first thing that went wrong |
| SuppressedCall.RestoreSucceedsExactly | src/engine/loader/platform_suppression.cpp:38-45 | a restore succeeds exactly once after a write, when the original without DR6 is written and read back |
| BootstrapSession.Session.Invoke | src/engine/bootstrap/bootstrap_session.cpp:6-30 | every code, with its literal value and size test, and both statuses of a call: refusals write nothing, success leaves and returns the served status |
| SessionSpec.ServeMeans | src/engine/bootstrap/bootstrap_session.cpp:11-26 | only the first initialization observes: it records one attempt and the reason, and for reason 5 alone an identifier field that reads back as the profile's identifier with NULs behind; a stop moves to state 3; every call reports the profile's digest and leaves the other fields |
| SessionProtocol.EveryInterleaving | src/engine/bootstrap/bootstrap_session.cpp:6-30 | the protocol invariant holds after any schedule of any number of threads, one memory access a step |
| SessionProtocol.MutualExclusion | src/engine/bootstrap/bootstrap_session.cpp:10-28 | at most one thread is between taking and clearing the flag |
| SessionProtocol.InspectsAtMostOnce | src/engine/bootstrap/bootstrap_session.cpp:11-15 | the observation runs at most once per session, under any schedule |
| SessionProtocol.Linearizable | src/engine/bootstrap/bootstrap_session.cpp:10-29 | every output handed out is the status after the calls released so far, run one after the other |
| SessionProtocol.ReleaseReturnsOutput | src/engine/bootstrap/bootstrap_session.cpp:27-29 | the releasing step returns OK with that status in the caller's buffer |
| SessionProtocol.OutputsAreHonest | src/engine/bootstrap/bootstrap_session.cpp:6-30 | under any interleaving every status handed out carries the profile's digest, and in state 2 the profile's identifier, reason 5 and one attempt |
| SessionProtocol.LoneCall | src/engine/bootstrap/bootstrap_session.cpp:6-30 | a call that is left alone returns the code and the status of the sequential session |
| SessionProtocol.RefusedWritesNothing | src/engine/bootstrap/bootstrap_session.cpp:8-10 | steps of invalid and busy calls write neither shared state nor the caller's buffer |
| SessionProtocol.RunMovesForward | src/engine/bootstrap/bootstrap_session.cpp:11-24 | between any two moments of a run the state moves only along the allowed order, and Stopped is absorbing |
| BootstrapLifecycle.TranscriptAccepted | src/engine/loader/bootstrap_lifecycle.cpp:37-60 | for every 32-bit inspection result all eight statuses of the session are accepted |
| BootstrapLifecycle.AcceptedIsTranscript | src/engine/loader/bootstrap_lifecycle.cpp:37-60 | eight statuses accepted against their own second one are those of the session for some inspection result |
| Relocation.Collides | src/engine/loader/bootstrap_lifecycle.cpp:13-14 | the covered-bits test fails exactly when two marked offsets are less than four apart |
| Relocation.ExportPrefix | src/engine/loader/bootstrap_lifecycle.cpp:6-22 | accepts exactly the valid masks, and then moves exactly the marked words modulo 2^32 |
| AuditMeaning.MaskValidMeans | src/engine/loader/bootstrap_lifecycle.cpp:8-15 | a mask is valid exactly when its words lie inside the prefix without a shared byte, and the base is aligned unless there are none |
| Relocation.MovedUnique | src/engine/loader/bootstrap_lifecycle.cpp:12-19 | mask and difference determine the result |
| Relocation.IdentityAtPreferred | src/engine/loader/bootstrap_lifecycle.cpp:17 | at the preferred base nothing changes |
| Relocation.RelocationComposes | src/engine/loader/bootstrap_lifecycle.cpp:8-17 | relocating twice is relocating once; the second step is accepted exactly when nothing is marked or the middle base is an aligned one |
| BootstrapAudit.OffsetOf | tools/check_bootstrap.py:43-47 | a range backed by only one section is found at that section's offset |
| BootstrapAudit.OneMatch | tools/check_bootstrap.py:43-47 | a single match means only one section backs the range |
| BootstrapAudit.OffsetInBounds | tools/check_bootstrap.py:21-24 | a number read through an RVA never fails the bounds test |
| AuditMeaning.WordMeans | tools/check_bootstrap.py:43-49 | a number read through an RVA is the little-endian value of its bytes in the only section that backs them |
| AuditMeaning.NumbersMissing | tools/check_bootstrap.py:43-49 | there is no such number exactly when no section alone backs the bytes |
| BootstrapAudit.Classify | tools/check_bootstrap.py:108-111 | a target is refused exactly when it straddles an export prefix, and is otherwise listed for the exports it lies in |
| BootstrapAudit.FaultlessIsAllowed | tools/check_bootstrap.py:104-112 | a relocation record gives no fault exactly when it is padding, or a HIGHLOW target inside the image that no export prefix cuts |
| AuditMeaning.RecordMeans | tools/check_bootstrap.py:102-111 | each of the three refusals of a record holds exactly for: a foreign kind, a target with a byte outside the image, a target with bytes inside and outside a prefix |
| AuditMeaning.BlockShapedMeans | tools/check_bootstrap.py:98-99 | a block header is accepted exactly when it is that of a writable block that fits what is left |
| BootstrapAudit.Audit | tools/check_bootstrap.py:90-117 | accepts exactly the sound directories and returns for each export the sorted offsets of the targets in its prefix; a refusal carries the fault of the first check that fails |
| AuditMeaning.AuditTellsWhy | tools/check_bootstrap.py:92-117 | each reason of a refusal holds exactly in its case; acceptance needs a directory size, a walk without fault, targets without a shared byte and an aligned base |
| BootstrapAudit.SortApart | tools/check_bootstrap.py:113-114 | being pairwise four apart does not depend on the order, so the neighbour test of the sorted list decides it |
| BootstrapMask.MaskBits | tools/bootstrap_load_artifact.py:14 | the sum of shifted ones has exactly the listed bits |
| BootstrapMask.AuditedMaskIsValid | tools/bootstrap_load_artifact.py:14 | every mask computed from audited offsets is accepted by the prefix relocation |
| BootstrapMask.CompileMasks | tools/bootstrap_load_artifact.py:9-15 | each generated mask is valid and marks exactly the relocation targets inside its export's prefix |
| BootstrapMask.DirectoryRead | tools/check_bootstrap.py:95-112 | over the bytes of well-formed blocks the walk finds their targets in order, or stops with the fault of the first record that has one |
| BootstrapMask.FoundAre | tools/check_bootstrap.py:95-112 | that is all targets of all blocks exactly when every record is allowed |
| BootstrapMask.BackedIsSeen | tools/check_bootstrap.py:43-49 | a directory inside one section and clear of the others is read as its file bytes |
| BootstrapMask.ExpectedPrefixIsObserved | tools/check_bootstrap.py:107-112 | for an audited artifact, the bytes computed from prefix and mask are those found after relocating the whole image |
| PeImage.ReadHeader | src/engine/bootstrap/pe_image.cpp:22-60 | an accepted header has its section table inside the headers, those inside the file, and a layout within the stated limits |
| PeImage.Parse | src/engine/bootstrap/pe_image.cpp:22-84 | the error is the header's, or that of the first section out of bounds or colliding, or a missing executable entry; acceptance is exactly the absence of all of them |
| PeRoundTrip.WrittenIsParsed | src/engine/bootstrap/pe_image.cpp:22-84 | a file laid out by concatenation, with every unread byte arbitrary, is parsed to its own fields and sections exactly when it is loadable; otherwise the error is that of its first fault |
| PeDissection.DissectionIsFaithful | src/engine/bootstrap/pe_image.cpp:22-60 | every byte string of that shape is such a file |
| PeDissection.AcceptedAreLoadable | src/engine/bootstrap/pe_image.cpp:22-84 | the parser accepts exactly the loadable files and no other byte string, with the file's own layout |
| PeDissection.MisshapenTellsWhy | src/engine/bootstrap/pe_image.cpp:22-45 | the error of a byte string that ends too early or whose sizes do not fit |
| PeOffsets.VerdictUnique | src/engine/bootstrap/pe_image.cpp:62-83 | the section table determines the error |
| PeOffsets.ParsedIsAccepted | src/engine/bootstrap/pe_image.cpp:62-83 | every accepted file yields a layout whose sections are in bounds, pairwise apart and hold the entry |
| PeOffsets.SectionsDisjoint | src/engine/bootstrap/pe_image.cpp:74-78 | two sections of an accepted image share no virtual byte and no file byte |
| PeOffsets.RawOffset | src/engine/bootstrap/pe_image.cpp:86-97 | on any layout, the offset in the only section that holds the range, and nothing when there is none or more |
| PeOffsets.RawIs | src/engine/bootstrap/pe_image.cpp:86-97 | the only holder of a range decides its offset |
| PeOffsets.NeverAmbiguous | src/engine/bootstrap/pe_image.cpp:89-95 | on an accepted image the answer exists exactly when some section holds the range, whichever it is |
| PeOffsets.RawInFile | src/engine/bootstrap/pe_image.cpp:86-97 | every answer lies behind the headers, and its whole range inside the file |
| PeOffsets.RawAtEntry | src/engine/bootstrap/pe_image.cpp:79-82 | the entry point has a file offset |
| PeOffsets.RawInjective | src/engine/bootstrap/pe_image.cpp:86-97 | two RVAs have the same offset only if they are equal |
| ProfileGate.MatchFileObservation | src/engine/bootstrap/profile_gate.cpp:13-25 | the verdict is that of fingerprint, layout, anchor count and the first anchor that disagrees |
| ProfileGate.FileMatchMeans | src/engine/bootstrap/profile_gate.cpp:6-25 | a file match means exactly: the profile's size, SHA-256 and layout, 1 to 32 anchors, each in one section and shown by the file |
| ProfileGate.FileRefusalTellsWhy | src/engine/bootstrap/profile_gate.cpp:6-25 | a refusal names the first of fingerprint, layout, anchor count and the first anchor that is misplaced or differs |
| ProfileGate.CheckMappedObservation | src/engine/bootstrap/profile_gate.cpp:27-47 | over a reader whose answers may change from call to call, the verdict is that of the 1024-byte header pieces and the first anchor that disagrees |
| ProfileGate.GatesAgree | src/engine/bootstrap/profile_gate.cpp:6-47 | for an accepted file and a faithful image the file gate answers what the mapped gate answers whenever the fingerprint is known |
| ProfileGate.ParsedGatesAgree | src/engine/bootstrap/profile_gate.cpp:6-47 | for every parsed file a file match carries over to the image, and a mapped match leaves only the fingerprint able to fail |
| ProfileGate.MappedMatchMeans | src/engine/bootstrap/profile_gate.cpp:27-47 | on any image a match means exactly: the profile's layout, every header piece shown at its call, every anchor well placed and shown at its call |
| ProfileGate.MappedRefusalTellsWhy | src/engine/bootstrap/profile_gate.cpp:27-47 | a mapped refusal names the first piece or anchor that cannot be read or differs, in the order of the reads |
| OrdinalOrder.ListingUnique | managed/Saex.Tools/WorldPlanValidator.cs:155-156 | a set of identifiers has only one ordinal listing |
| WorldPlanSort.Sort | managed/Saex.Tools/WorldPlanValidator.cs:149-165 | over any enumeration of the keys the result is the layered order of the graph, with the omitted keys reported in ordinal order |
| WorldPlanLayers.CycleReportedIffCycle | managed/Saex.Tools/WorldPlanValidator.cs:157-161 | a cycle is reported exactly when the graph has one, and the report lists exactly the keys that can reach one |
| WorldPlanLayers.OmittedReachCycle | managed/Saex.Tools/WorldPlanValidator.cs:153-163 | a key is omitted exactly when it can reach a cycle |
| WorldPlanLayers.AcyclicIsPermutation | managed/Saex.Tools/WorldPlanValidator.cs:149-165 | without a cycle the result is a duplicate-free permutation of the keys with dependencies first |
| WorldPlanLayers.LayerIsDepth | managed/Saex.Tools/WorldPlanValidator.cs:155-162 | a key's layer is one above that of its deepest dependency |
| WorldPlanLayers.OrderIsByDepth | managed/Saex.Tools/WorldPlanValidator.cs:155-162 | the order is by depth, then by identifier |
| WorldPlanClosure.Close | managed/Saex.Tools/WorldPlanValidator.cs:107-115 | the worklist ends with exactly the keys reachable from its roots, and reports each optional one among them once |
| WorldPlanInput.ResourceEdgesClosed | managed/Saex.Tools/WorldPlanValidator.cs:76-85 | every edge of the resource graph ends at a resource |
| WorldPlanInput.AssetEdgesClosed | managed/Saex.Tools/WorldPlanValidator.cs:101-105 | every edge of the asset graph ends at an asset |
| WorldPlanInput.IdentifierCharacters | managed/Saex.Tools/WorldPlanValidator.cs:136-137 | an accepted identifier has only the pattern's characters exactly when it does not end in a line feed |
| WorldPlanInput.LineFeedAccepted | managed/Saex.Tools/WorldPlanValidator.cs:136-137 | an identifier with a final line feed is accepted |
| WorldPlanInput.AssetPathEnds | managed/Saex.Tools/WorldPlanValidator.cs:138-140 | an accepted asset reference ends in an admissible character exactly when it does not end in a line feed, and its path ends in a slash exactly when a line feed follows that slash |
| WorldPlanInput.HiddenSlash | managed/Saex.Tools/WorldPlanValidator.cs:138-140 | a reference whose path ends in a slash and a line feed is accepted |
| WorldPlanPatterns.PatternsAreWrittenSo | managed/Saex.Tools/WorldPlanValidator.cs:136-141 | the three regular expressions of the model are spelled as in the source |
| WorldPlanPatterns.IdentifierMeans | managed/Saex.Tools/WorldPlanValidator.cs:136-137 | an identifier is accepted exactly when it has 1 to 128 characters, matches its pattern and has no double dot |
| WorldPlanPatterns.AssetIdentifierMeans | managed/Saex.Tools/WorldPlanValidator.cs:138-140 | an asset reference is accepted exactly when it has 1 to 192 characters, matches its pattern, has no double dot or slash and ends in no slash |
| WorldPlanPatterns.DigestMeans | managed/Saex.Tools/WorldPlanValidator.cs:141 | a digest is accepted exactly when it is the lower-case hexadecimal of some 32 bytes |
| WorldPlanIssues.ResourcesSilent | managed/Saex.Tools/WorldPlanValidator.cs:58-75 | reading the resources raises nothing exactly when each definition is well formed, new, and claims only free names |
| WorldPlanIssues.AssetsSilent | managed/Saex.Tools/WorldPlanValidator.cs:87-100 | reading the assets raises nothing exactly when each definition is well formed and new |
| WorldPlanIssues.CapabilitiesSilent | managed/Saex.Tools/WorldPlanValidator.cs:116-120 | the capability checks raise nothing exactly when both lists are well formed and everything required is available |
| WorldPlanValidator.ReadResources | managed/Saex.Tools/WorldPlanValidator.cs:58-75 | registers the first definition of each identifier and the first claim of each name; the diagnostics are exactly those of the definitions, in order |
| WorldPlanValidator.LinkResources | managed/Saex.Tools/WorldPlanValidator.cs:76-85 | the edges are the known dependencies and the other resources that provide what is required; for any enumeration the diagnostics are exactly one for each missing dependency or provider name |
| WorldPlanValidator.ReadAssets | managed/Saex.Tools/WorldPlanValidator.cs:87-100 | registers the first definition of each reference; the diagnostics are exactly those of the definitions, in order |
| WorldPlanValidator.LinkAssets | managed/Saex.Tools/WorldPlanValidator.cs:101-105 | the edges are the known dependencies; for any enumeration the diagnostics are exactly those of the missing ones |
| WorldPlanValidator.LinksSilent | managed/Saex.Tools/WorldPlanValidator.cs:76-85 | nothing is raised exactly when no resource misses a dependency or a provider |
| WorldPlanValidator.AssetLinksSilent | managed/Saex.Tools/WorldPlanValidator.cs:101-105 | nothing is raised exactly when no asset misses a dependency |
| WorldPlanValidator.CheckClosure | managed/Saex.Tools/WorldPlanValidator.cs:107-115 | the diagnostics name exactly the optional assets reachable from a critical one |
| WorldPlanValidator.SortGraph | managed/Saex.Tools/WorldPlanValidator.cs:149-165 | the layered order, and one diagnostic exactly when there is a cycle, listing the keys that can reach it |
| WorldPlanValidator.AllRaised | managed/Saex.Tools/WorldPlanValidator.cs:47-134 | the parts raise nothing exactly for a plan that satisfies every demand |
| WorldPlanValidator.Validate | managed/Saex.Tools/WorldPlanValidator.cs:34-134 | an unreadable, oversized or incomplete document has its one diagnostic; any other is valid exactly when it satisfies every demand, its diagnostics are exactly those the plan raises, and both orders are the layered orders of its graphs, valid or not |
| WorldPlanCauses.RaisesMeans | managed/Saex.Tools/WorldPlanValidator.cs:34-134 | a diagnostic is raised exactly when it reports a fault of some definition, with its code, path and message |
| WorldPlanCauses.ValidMeansFaultless | managed/Saex.Tools/WorldPlanValidator.cs:47-134 | a plan is valid exactly when it has no fault |
| WorldPlanCauses.BudgetMeans | managed/Saex.Tools/WorldPlanValidator.cs:121-133 | the recovery budget is accepted exactly within the profile's bounds and nesting |
| WorldPlanExample.SmallPlansAreValid | managed/Saex.Tools/WorldPlanValidator.cs:34-134 | a plan of one resource and one asset with any names and any digests of 32 bytes is valid |
| WorldPlanExample.OtherDigestsAreRefused | managed/Saex.Tools/WorldPlanValidator.cs:66-67 | with any other digest string it is refused, and says so |
| WorldPlanMeaning.QuietIsConsistent | managed/Saex.Tools/WorldPlanValidator.cs:61-75 | reading front to back reports nothing exactly when the definitions are well formed, with distinct ids and no name claimed twice, in whatever order |
| WorldPlanMeaning.AssetsQuietIsConsistent | managed/Saex.Tools/WorldPlanValidator.cs:87-100 | the same for assets: well formed with distinct references, in whatever order |
| WorldPlanMeaning.ValidResourceOrder | managed/Saex.Tools/WorldPlanValidator.cs:76-85 | in a valid plan every resource is placed once, behind what it depends on and behind what provides its requirements |
| WorldPlanMeaning.ValidResourceLinks | managed/Saex.Tools/WorldPlanValidator.cs:79-84 | in a valid plan every dependency and every required service exists |
| WorldPlanMeaning.ValidAssetOrder | managed/Saex.Tools/WorldPlanValidator.cs:87-105 | in a valid plan every asset is placed once, behind what it depends on |
| WorldPlanMeaning.ValidAssetLinks | managed/Saex.Tools/WorldPlanValidator.cs:101-105 | in a valid plan every dependency of an asset exists |
| WorldPlanMeaning.ValidClosure | managed/Saex.Tools/WorldPlanValidator.cs:107-115 | in a valid plan nothing along a chain of requirements from a critical asset is an optional download |
| LaunchSpec.ListingUnique | src/engine/observer/launch_context.cpp:72-76 | a bag of entries has only one strictly ordered listing, for any total preorder on keys |
| LaunchSpec.PackingUnique | src/engine/observer/launch_context.cpp:46-56 | a double-NUL-terminated snapshot has only one reading |
| LaunchGrammar.DrivePathMeans | src/engine/observer/launch_context.cpp:15-18 | a directory is accepted exactly when it is a letter, a colon, a slash of either kind and anything without a NUL |
| LaunchGrammar.KeyIs | src/engine/observer/launch_context.cpp:19-22 | the key of an entry is its name, also where the entry starts with an equals sign |
| LaunchGrammar.ValidEntryMeans | src/engine/observer/launch_context.cpp:23-34 | an entry is accepted exactly when it is a variable with a name, or the current directory of a drive |
| LaunchContext.NeighboursDiffer | src/engine/observer/launch_context.cpp:74-76 | the neighbour test of the sorted entries holds exactly when the keys strictly increase |
| LaunchContext.DuplicatesFound | src/engine/observer/launch_context.cpp:73-76 | that is the case exactly when no two given entries share a key |
| LaunchContext.CheckEntries | src/engine/observer/launch_context.cpp:66-71 | finds the first invalid or overflowing entry, and else counts exactly the units of the block |
| LaunchContext.PackBlock | src/engine/observer/launch_context.cpp:77-81 | the block is every entry with its terminator and the final one, two for no entries |
| LaunchContext.BuildBlock | src/engine/observer/launch_context.cpp:62-81 | fails with the first of the directory, limit, entry and duplicate errors, and else returns the block of the listing |
| LaunchContext.Capture | src/engine/observer/launch_context.cpp:46-56 | returns the one reading of the snapshot if it is within both limits, and nothing if it is not, without reading past the terminator |
| LaunchContext.BlockReadsBack | src/engine/observer/launch_context.cpp:46-81 | the scan of a built block returns the very entries, in order, and meets no limit |
| LaunchContext.BlockIsCanonical | src/engine/observer/launch_context.cpp:72-81 | the block does not depend on the order of the input |
| LaunchContext.PrepareIsIdempotent | src/engine/observer/launch_context.cpp:62-107 | a prepared environment is accepted again and prepared to the same block |
| LaunchContext.PreparesWithoutError | src/engine/observer/launch_context.cpp:62-107 | no check gives an error exactly when the entries are accepted and the system cooperates |
| LaunchGrammar.PrepareTellsWhy | src/engine/observer/launch_context.cpp:62-107 | the error is that of the first fault: directory, count, first faulty entry, duplicate, hash, opening, final path |
| LaunchContext.LaunchContext.constructor | src/engine/observer/launch_context.cpp:59 | ready exactly when everything is accepted and the system cooperates, and then holding the block of the ordered entries; otherwise blank, with the error of the first check that fails |
| LaunchContext.LaunchContext.Capturing | src/engine/observer/launch_context.cpp:40-58 | the same over the process environment: ready exactly when it has an admissible reading; otherwise the capture error, or the error its reading gives |
| LaunchContext.LaunchContext.Prepare | src/engine/observer/launch_context.cpp:62-107 | sets all fields on success and only the error on failure, which is that of the first check that fails |

## Left out

- The range-only specification checks that surround the byte templates (`valid_cwd_query_spec`, `valid_cwd_lock_spec`, `valid_cwd_seh_spec`, `valid_file_manager_entry_spec`, the span loops of the code builders): the instance in routing and the parts of `valid_cwd_seh_spec` that place its pieces are modelled; elsewhere their consequences are premises.
- CwdCopyRun.CopierRuns: stack, buffers and code are premised mapped and apart, as the observer's admitted frames make them; faults and self-modification are not modelled.
- FileManagerReady.ReadyToApi: the API itself is foreign code; what it leaves at its return is a premise of the lemmas behind it.
- SehRoundTrip.WrapperBalanced: that the frame words survive what runs between prologue and epilogue is a premise.
- CdStreamReturn.FromHeapApi: the heap API itself is foreign code; its answer, and that it leaves the frame words and the thread block alone, are premises.
- EFLAGS is a record of the named flags and a remainder; the auxiliary flag is optional because logical operations leave it undefined. The masks of the source select exactly these fields.
- ApplicationRouting.Layout: the comparison of the emitted bytes with the observed prefixes in `valid_application_routing_spec` is plain equality and is omitted.
- `valid_platform_suppression_spec`, and the register groups the port does not cover; the recorded original is optional in the model and present whenever a write was attempted.
- SessionProtocol.EveryInterleaving: steps are sequentially consistent; the acquire and release orders of the flag are not modelled separately, and an inspection that never returns is a thread that is not scheduled.
- `valid_bootstrap_lifecycle_spec` (character sets and range checks).
- BootstrapAudit.Audit: imports, strings, export names and the linker map of the same script are not modelled, and the export RVAs are given.
- BootstrapMask.ExpectedPrefixIsObserved: what the system loader does to an image is its specification, moving exactly the target words.
- SHA-256, the JSON decoder, the ordinal comparison of keys and all system calls: a hash, a decoded document, a total preorder and an answer stand for them. Of regular expressions only the three patterns and the meaning of `$` are modelled.
- WorldPlanValidator.Validate: the decoder's answer and the digest are given; the order of the diagnostics between resources, and between assets, that a dictionary enumerates is not specified.
- `directory_matches`, handles and their closing; path text beyond the drive-path check.
- Sorting internals: an insertion sort stands for the library's; a tie may come out either way, and every tie that matters is refused.
- The observers around these cores (processes, debug events, image probes), the fixture codec, the inbox and the control clock.

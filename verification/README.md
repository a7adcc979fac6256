# p-mark: a verified model

p-mark keeps one piece of state in two places. The eBPF programs in `mark.c` keep a kernel map
from process lifetimes to marks and change it at fork, exit and exec; the daemon in `mark.go`
keeps a mirror of that map, hears of the changes through an event queue, asks a checker, and
writes back. Both sides settle competing values by the same order. `policy.go` gives the exec
program a set of exact comm rules that it switches atomically, generation by generation.
`multirule/multirule.go` indexes which rules each process matches, and `cmd/main.go` compiles rule
lists into policies and prints the marked processes as a tree. This project models these five
parts in Dafny and proves what they promise together.

## How it is organised

| file | contents |
|---|---|
| `Types.dfy`, `Merge.dfy` | values, keys, checkers; the merge order and its algebra |
| `ExactRules.dfy` | comm buffers, rule scan, normalization, the rule table |
| `Protocol.dfy` | kernel programs and daemon as one state machine over atomic steps, and its runs |
| `Programs.dfy` | what one run of each kernel program does to the map and reports |
| `Invariants.dfy`, `Agreement.dfy`, `Lifetimes.dfy`, `Exactness.dfy`, `GracePeriod.dfy` | what holds in every state of every run |
| `Steps.dfy`, `Marker.dfy` | the imperative code: kernel programs and daemon operations as methods with loops |
| `ProcessLists.dfy`, `Targets.dfy` | process lists, their indexes and ancestry, and the nearest match a traversal should leave |
| `VisitOrder.dfy`, `Sweeps.dfy` | the orders in which a traversal may visit a list, for which lists they give nearest matches, and what the visits do to any mirror |
| `Tracker.dfy`, `TrackerHistory.dfy`, `TrackerOrder.dfy` | the multi-rule tracker, what it knows after any events, and why registration order does not matter |
| `Regexps.dfy`, `Promotion.dfy` | regexp semantics, the exact subset, policy compilation |
| `Watcher.dfy` | the watcher's forest |

The protocol and the code are tied together by the class `Marker.Marker`: its ghost field
`history` is a run of the protocol, every map operation of every method appends the step it
performs, and `Traced()` says that the fields are the last state of that run. Whatever is proved
of all runs is therefore a fact about the code. Between any two map operations the methods call
`Interfere`, which runs kernel programs any number of times for any tasks. Writes fail
nondeterministically. Ghost accounts count what happened (`past.runs` kernel program runs,
`ledger.failures` failed rule writes and activations), so that "if no kernel program ran" and
"fails only if a write failed" can be said exactly. Where only the part of a call that reads the
kernel map must be quiet, the call returns the ghost count `read` of runs up to the end of it.

## Modelling assumptions

- One run of a kernel program is one atomic step. Each daemon write to a shared map is a step of
  its own. `mark.c:326-342` reads the policy cell through a pointer more than once; no finer
  interleaving is claimed.
- A failed map write leaves the map unchanged. A full ring buffer loses the event and nothing else.
- The boot clock never runs backwards. It is read in one step and used in a later one.
- Checkers, rules and the case-folding relation are pure functions.
- Task comm buffers are NUL-terminated and zero-padded.
- A process list has no PID 0 and no PID twice.
- The exit program's `has_mark` is computed from the entry as it was before its own update
  (`mark.c:271-278` reads it through the looked-up pointer after the update).
- `Value.explicit` is the field the source calls `inheritance`.

## False claims and their exact conditions

- Authoritative exec exactness over runs with one priority P holds iff P is nonnegative
  (`ExactIffNonnegative`): a miss under a stale generation is recorded with priority 0
  (`mark.c:334-350`), and `NegativePriorityNotExact` is, for every P < 0, a run that ends in a wrong
  mark. `ExecExactIff` is the exact condition for one exec under arbitrary priorities.
- The tombstone cutoff is an unsigned subtraction (`mark.go:1011`). `CutoffExact`: it selects what
  is older than the TTL exactly when the clock is past the TTL.
- "A tombstone stays for the TTL after the daemon buried the process" fails where a tombstone of a
  newer generation overtakes the burial: `BurialOvertaken` is the run. `GraceFromBurial` holds while
  the tombstone stays of one class, and `GraceSinceDeath` always: more than the TTL has passed since
  the process's exit program ran, its exit was handled, or it was found dead.
- A promoted policy and the checker it came from differ on an empty comm that a rule names, since
  the checker never matches an empty value (`cmd/main.go:1058`), and on a comm that is not valid
  UTF-8 and reads as one that a rule names, since the matcher sees U+FFFD for a bad byte.
  `EmptyCommDiffers` and `MalformedCommDiffers` are the inputs; `AuthoritativeExactIff` and
  `RuleMatchSoundIff` are the exact conditions.
- "Every process gets its nearest matching ancestor's mark" fails for some lists, because the
  fallback loop (`mark.go:810-820`) takes processes in list order. A process is cut off (`CutOff`)
  if its parent chain does not end at PPID 0, it comes before all its other ancestors in the list,
  and its parent is listed and not itself. `NearestIff`: every process gets its nearest match for
  every checker iff none is cut off. `ListOrderMatters` is the input: a parent whose own parent is
  not listed, with its child listed first. `CutOffUnmarked` says what happens to such a child.
- A live marked process may be missing from the watcher's tree. `PrintedIff`: exactly when a
  marked process at or above it is its own ancestor. `MarkedCycleHidden` is the input: two
  processes that are each other's parent.

## Model

| member | source | states |
|---|---|---|
| `Merge.Prefer` | mark.go:934-972 | The merge returns one of its arguments, and one that neither argument outranks. |
| `Merge.RankLeqIsLexicographic` | mark.go:934-972 | The order behind the merge is the lexicographic order of (tombstone, generation, priority, explicit, timestamp). |
| `Merge.MergeAlgebra` | mark.c:171-188 | The C and Go merges choose the same winner on all inputs; the merge is associative and idempotent, commutative when ranks differ, and takes the newer argument on ties. |
| `Merge.FoldIsMaximum` | mark.go:934-972 | Merging any sequence of updates ends in one of them, of highest rank. |
| `Merge.FoldOrderIrrelevant` | mark.go:934-972 | Every delivery order of the same updates ends in the same rank, and in the same value when distinct updates never tie. |
| `ExactRules.MakeCommRuleKey` | policy.go:180-189 | Rejects exactly comms with a NUL or more than 15 bytes; otherwise the key holds the zero-padded comm. |
| `ExactRules.Int8String` | mark.go:1308-1317 | Returns the bytes before the first NUL, bytes 128 and above included. |
| `ExactRules.CommRoundTrip` | policy.go:180-189 | Decoding an encoded comm gives it back, so the key encoding is injective. |
| `ExactRules.BufferRoundTrip` | mark.go:1308-1317 | Re-encoding the name of a zero-padded task buffer gives the buffer back. |
| `ExactRules.ScanFindsFirstOfHighest` | policy.go:148-166 | The scan decides by the first rule of highest priority naming the comm, and misses iff none names it. |
| `ExactRules.ExactCommCheck` | policy.go:148-166 | The loop computes that scan. |
| `ExactRules.ValidateAndNormalizeKernelPolicy` | policy.go:109-146 | Accepts exactly the acceptable policies; the result has one rule per comm, all from the input, and decides every comm as the input does. |
| `ExactRules.TableLookupIsScan` | mark.c:326-331 | One hash lookup of a task buffer in the table of distinct rules gives what scanning them gives. |
| `ExactRules.ExactRuleRefinement` | policy.go:109-166 | Lookup over the normalized rules equals the linear scan over the original ones, in priority, mark and match. |
| `Programs.ForkInherits` | mark.c:190-251 | After a fork the child is marked in the kernel iff it was before, or had no entry, its parent is marked and the insertion succeeds; it then has its parent's mark, priority and generation, inherited at this moment; the event says whether it is marked and with what. |
| `Programs.ExitBuries` | mark.c:253-296 | An exit turns an existing entry into a tombstone of this moment, all else kept, and never adds one; the event carries it and says whether it was marked. |
| `Programs.ExecTells` | mark.c:298-378 | Whatever an exec does, its event reports the entry it leaves; it touches no other entry and never buries one. |
| `Invariants.StepKeepsOk` | mark.go:1110-1132 | Every step keeps: no stored, queued or pending value is of generation 0, ahead of the daemon's generation or ahead of the clock; the active cell, rule table and policy agree. |
| `Invariants.ReachableOk` | mark.go:1110-1132 | These hold in every state of every run, under any write failures and lost events. |
| `Invariants.PolicyIsLastActivated` | policy.go:240-256 | In every state the recorded policy is that of the last activation. |
| `Invariants.SwitchAtomic` | policy.go:205-322 | At every point of every run the rules under a nonzero active generation are exactly those of the last activated policy, and the exec lookup decides each comm as that policy does. |
| `Agreement.ReachableTied` | mark.go:572-740 | In every reliable run, kernel and mirror agree about a process or its last queued event reports the kernel's value in a way that handling will settle. |
| `Agreement.QuiescentAgreement` | mark.go:572-740 | Over every interleaving with no failed process-map write, no lost event and fork first: with no event about a process queued, both replicas hold the same value for it or are both tombstones. |
| `Lifetimes.MirrorStep` | mark.go:919-932 | A step never lowers the rank of a mirror entry, and removes only a collectable tombstone. |
| `Lifetimes.MirrorMonotone` | mark.go:919-972 | Over whole runs a mirror entry's rank never falls while it stays, and a mirror tombstone never comes back to life. |
| `Lifetimes.RemovalOnlyAfterTTL` | mark.go:1007-1035 | With the clock past the TTL only tombstones older than the TTL leave the mirror. |
| `Lifetimes.CutoffExact` | mark.go:1011 | The wrapping cutoff selects exactly the entries older than the TTL iff the clock is past the TTL. |
| `GracePeriod.BurialStamps` | mark.go:638-661 | Handling an exit, or finding a process dead, turns its mirror entry into its tombstone, stamped with the reading of that moment or the entry's own timestamp, whichever is later. |
| `GracePeriod.GraceFromBurial` | mark.go:1007-1035 | A tombstone collected while still of the class it was buried with was buried more than the TTL before. |
| `GracePeriod.BurialOvertaken` | mark.go:831-861 | A run in which a tombstone of a newer generation overtakes a burial, which is then collected at once. |
| `GracePeriod.TombstoneDated` | mark.c:271-278 | In every run every tombstone in the kernel, the mirror or an event is stamped no earlier than some death of its process. |
| `GracePeriod.GraceSinceDeath` | mark.go:1007-1071 | Over every run, with the clock past the TTL, a process leaves the mirror only more than the TTL after a death of it. |
| `Lifetimes.EntitledWasMarked` | mark.c:212-233 | Any entry, queued value or pending value of a process goes back to a state in which it had a mark. |
| `Lifetimes.NoSlotForNeverMarked` | mark.c:333-356 | Every key in either map once had a mark there: unknown exits, authoritative misses and unmarked forks and execs never take a slot. |
| `Lifetimes.GenerationsNeverFall` | policy.go:212-223 | Reserved and current generations never decrease along a run. |
| `Lifetimes.GenerationFreshness` | policy.go:212-256 | No generation is reserved twice, none is 0, active generations strictly increase, through failed switches too. |
| `Lifetimes.ValuesNeverAhead` | mark.go:1110-1132 | Every generation in kernel, mirror and queue is at most the current one. |
| `Lifetimes.TableGrowsOnlyByPut` | policy.go:225-238 | Between insertions the rule table only loses entries. |
| `Lifetimes.RulesWithinPeak` | mark.c:128-134 | The peak recorded at insertions bounds the size of the rule table in every earlier state of a run. |
| `Exactness.ExecExactIff` | mark.c:298-358 | An authoritative exec on a process not tombstoned leaves the rules' decision iff no same-generation entry of higher priority and different mark outranks it. |
| `Exactness.ExecByPolicy` | mark.c:323-358 | What a successful exec leaves, by mode and decision: nothing changes without a deciding policy, on a tombstone, or on a miss that is not authoritative or has no entry; a match writes the rule's mark unless outranked; an authoritative miss takes the mark. |
| `Exactness.ExecDecides` | mark.c:298-358 | The same in every state of every run, with the decision of a scan of the active policy's rules. |
| `Exactness.PositiveExecIff` | mark.c:323-353 | In positive-only mode, after any run, a match leaves the rule's mark iff no same-generation entry of higher priority and different mark outranks it, and a miss changes nothing. |
| `Exactness.PositiveExecExact` | mark.c:323-353 | With one fixed P >= 0 a positive-only match always leaves the rule's mark. |
| `Exactness.ReachablePriority` | mark.go:1110-1132 | With one priority P everywhere, marks carry P and only no-mark values may carry 0, in every reachable state. |
| `Exactness.AuthoritativeExecExact` | mark.c:298-358 | With one fixed P >= 0, after any run, such an exec leaves exactly the mark a scan of the active policy gives its comm. |
| `Exactness.NegativePriorityNotExact` | mark.c:334-350 | For every P < 0 a run in which a matching exec stays unmarked. |
| `Exactness.ExactIffNonnegative` | mark.c:298-358 | Exactness over all runs with the one priority P holds iff P >= 0. |
| `Marker.Marker.constructor` | mark.go:209-268 | Starts as the initial state of the protocol, with nothing installed. |
| `Marker.Marker.TableWithinCapacity` | mark.c:128-134 | If no deletion ever failed, the table held at most 2 x 1024 rules in every state the code went through. |
| `Marker.Marker.ReplicasAgree` | mark.go:572-740 | Where no map write failed, no event was lost and forks came first, the two maps of the code agree about every process without a queued event. |
| `Marker.Marker.KernelResolved` | policy.go:240-268 | In that case, where the mirror shows every listed process its nearest match, so does the kernel map. |
| `Marker.Marker.ForkProgram` | mark.c:190-251 | An existing child entry stays and is reported; else the parent's live mark is inherited with its priority and generation and a new timestamp, if the insertion succeeds; without one nothing is added and the event is unmarked. |
| `Marker.Marker.ExitProgram` | mark.c:253-296 | Only an existing entry becomes a tombstone, stamped now, with all else kept; the event carries the tombstone. |
| `Marker.Marker.ExecProgram` | mark.c:298-378 | Under a deciding policy a match is merged as the rule's explicit mark, in authoritative mode a miss as the loss of the entry's mark; otherwise nothing changes; the event reports what the entry now is. |
| `Marker.Marker.RunKernelProgram` | mark.c:190-378 | One run of a program is one step of the protocol; threads are ignored; the map is updated before the event is sent. |
| `Marker.Marker.SyncKernel` | mark.go:974-981 | Overwrites the kernel entry, or fails and changes nothing. |
| `Marker.Marker.UpsertProcess` | mark.go:919-932 | Merges into the mirror and writes the result to the kernel map exactly when the mirror changed. |
| `Marker.Marker.ReceiveFork` | mark.go:579-597 | Merges a reported mark, else writes the mirror's own mark to the kernel map; carries it to the decision. |
| `Marker.Marker.ReceiveExit` | mark.go:638-661 | Exits unknown to both sides change nothing; others leave the tombstone of the mirror's or the event's value, stamped with the reading or its own timestamp, whichever is later. |
| `Marker.Marker.ReceiveExec` | mark.go:677-701 | Merges the event's value, repairs the kernel where the mirror won, and goes on to the checker unless the mirror holds a tombstone. |
| `Marker.Marker.HandleSecondHalf` | mark.go:599-621 | Merges the checker's match as an explicit mark, else for a fork the parent's mark as an inherited one, else a live no-mark value for a known process, else nothing; written through when the mirror changed. |
| `Marker.Marker.HandleEvent` | mark.go:572-740 | What handling an event leaves in the mirror: the checker is asked about every fork, and every exec of a process not tombstoned; its match is merged as an explicit mark of the current generation, and stays iff neither the old entry nor the event's value is a tombstone or of higher priority in this generation; else a fork merges its parent's mark, else a live entry loses its mark, and no entry is made; exits leave a tombstone. One protocol step, or two, among kernel runs and clock readings. |
| `Marker.MatchStays` | mark.go:934-972 | After a match the entry is the new mark iff neither the old entry nor the event's value is a tombstone or of higher priority in this generation; otherwise it is one of those, of higher rank. |
| `Marker.Marker.SetProcessMark` | mark.go:867-872 | One protocol step after a clock reading and kernel runs: merges an explicit mark of the current generation into the mirror and, if that changes it and the write succeeds, into the kernel map. |
| `Marker.Marker.MergeKernelEntries` | mark.go:836-855 | The reading half of a refresh: mirror ranks never fall, and if no kernel program ran every kernel entry is equalled or listed for repair. |
| `Marker.Marker.RefreshMirrorFromKernel` | mark.go:831-861 | Mirror ranks never fall; if no kernel program ran while the map was read, the mirror takes only old mirror and kernel values and outranks the old kernel values; if none ran at all and no write failed, every kernel entry equals its mirror entry. |
| `Marker.Marker.ReconcileProcess` | mark.go:780-804 | One visited process, from any mirror: an explicit mark, else the parent's mark as an inherited one, is merged; else a live entry is merged without its mark; nothing else in the mirror changes; the children are offered what was decided. |
| `Marker.Marker.WalkProcess` | mark.go:776-808 | The recursive walk ends for any parent graph, leaves a visited set closed under children, visits each process after its parent unless a walk starts at it, and changes the mirror as the visits say. |
| `Marker.Marker.OfferedByMirror` | mark.go:812-818 | A fallback walk is offered the listed parent's mirror value exactly when that is a live mark of the current generation. |
| `Marker.Marker.WalkRest` | mark.go:810-820 | The fallback walks start at the first listed process not yet visited, when all roots and everything below visited processes are visited, until all are visited. |
| `Marker.Marker.TraverseProcesses` | mark.go:761-829 | For any list and any mirror: every listed process is visited exactly once in a legal order, and the mirror ends as these visits leave it, so no live entry of a listed process is of an old generation and unlisted ones are untouched; with only old generations before, each process shows its own match or else its parent's decision if the parent was visited first; these are the nearest matches for every checker iff no process of the list is cut off. |
| `Marker.Marker.TraverseProcessTree` | mark.go:749-759 | The same for refresh plus walk, if no kernel program ran while the kernel map was read; no expired live entry is left when all live entries are listed. |
| `Marker.Marker.TombstoneDeadProcesses` | mark.go:1048-1071 | Exactly the live entries without a process become tombstones, stamped no earlier than the call; nothing else in the mirror changes. |
| `Marker.Marker.RegularCleanup` | mark.go:1037-1080 | If it succeeds, no kernel program ran before the kernel map was read, and all live kernel entries and living processes are listed, no live mirror entry is of an old generation. |
| `Marker.Marker.CollectOld` | mark.go:1007-1030 | With the clock past the TTL exactly the tombstones older than the TTL leave the mirror, and in any case those before the cutoff do, and leave the kernel map if no deletion fails and no kernel program runs. |
| `Marker.Marker.CollectTombstones` | mark.go:1007-1035 | A failed deletion ends the call in failure, with the expired tombstones out of the mirror; otherwise the regular cleanup follows with its guarantee, and no expired tombstone is back unless its key is listed. |
| `Marker.Marker.PutCommRule` | policy.go:225-236 | One insertion under the reserved generation, or a counted failure; the peak size is kept up to date. |
| `Marker.Marker.DeleteCommRuleKeys` | policy.go:271-283 | Deletes the keys it can, keeps every other rule, and returns exactly what stayed. |
| `Marker.Marker.CleanupInactiveCommRules` | policy.go:295-322 | Afterwards every rule in the table is still recorded under its generation; if no deletion ever failed only the current generation is left. |
| `Marker.Marker.ReserveGeneration` | policy.go:173-223 | Takes the next generation, under which no rule exists yet; fails exactly at 2^64 - 1. |
| `Marker.Marker.PopulateRules` | policy.go:224-238 | On success the reserved generation holds exactly the table of the rules; otherwise one insertion failed. |
| `Marker.Marker.RollBack` | policy.go:271-293 | Whatever could not be deleted stays recorded under its generation. |
| `Marker.Marker.FlipPolicy` | policy.go:240-256 | Activates checker, generation, policy and cell together, or restores all of them. |
| `Marker.Marker.SetKernelPolicyLocked` | policy.go:205-269 | A failed switch changes neither decisions nor mirror, and happens only on a listing error, an exhausted generation or a failed write; a successful one installs a fresh generation and, if no kernel program runs between the activation and the end of reading the kernel map, leaves every process of a list without cut-off processes with its nearest match under the new checker; rules stay recorded and the table within 2 x 1024 entries. |
| `Marker.Marker.SetKernelPolicy` | policy.go:191-203 | Rejects exactly the unacceptable policies, changing nothing; for the others the same as above, with rules that decide every comm as given; without a checker the rules themselves decide. |
| `Marker.Marker.SetChecker` | mark.go:863-865 | The same switch, to the userspace-only policy with the new checker. |
| `Marker.Marker.BumpGeneration` | mark.go:874-883 | The same switch, keeping checker and policy. |
| `ProcessLists.IndexProcesses` | mark.go:762-773 | The indexes hold every process under its PID and every list of children complete, once each, in PID order. |
| `Targets.NearestUnfold` | mark.go:781-804 | Over any parent graph, cycles included, a process that does not match has its listed parent's nearest match. |
| `VisitOrder.ClosedDown` | mark.go:803-808 | A set closed under children that holds an ancestor holds the process. |
| `VisitOrder.LegalTraversal` | mark.go:776-820 | Legal visits that cover the list visit every process once, each as a root, after its parent, or as the start of a fallback walk. |
| `VisitOrder.BeforeParentIff` | mark.go:806-820 | In every complete traversal a process with a nonzero PPID is visited before its parent iff its chain does not end and it precedes all its other ancestors in the list. |
| `VisitOrder.DecidedIsNearest` | mark.go:776-820 | Where no process is cut off, deciding in visiting order gives every process its nearest match. |
| `VisitOrder.CutOffMisses` | mark.go:810-820 | A cut-off process misses its parent's match, whatever the order of visits. |
| `VisitOrder.NearestIff` | mark.go:776-820 | Every checker gives every process its nearest match iff no process of the list is cut off. |
| `VisitOrder.EndingListsInherit` | mark.go:806-808 | Lists whose parent chains all end have no cut-off process. |
| `VisitOrder.ListOrderMatters` | mark.go:810-820 | With an unlisted grandparent, all traversals with the parent listed first give the nearest matches, and none with the child listed first does. |
| `Sweeps.SweepCurrent` | mark.go:780-804 | After its visit no process keeps a live entry of an old generation, from any mirror of no later generation. |
| `Sweeps.SweepOthers` | mark.go:780-804 | Visits leave the entries of all other keys alone. |
| `Sweeps.SweepSettles` | mark.go:780-820 | From old generations every visited process shows what the order of visits decides, and later visits do not change it. |
| `Sweeps.TourResult` | mark.go:761-829 | What the visits of a whole list do to any mirror, and with nearest matches from old generations if none is cut off. |
| `Sweeps.CutOffUnmarked` | mark.go:810-820 | After a traversal from old generations with a checker that matches its parent only, a cut-off process does not show its nearest match. |
| `Tracker.Tracker.constructor` | multirule/multirule.go:58-65 | An empty tracker is valid. |
| `Tracker.Tracker.AllocateID` | multirule/multirule.go:81-97 | The wrapping scan ends whenever fewer than 2^64 - 1 rules are registered, with the first nonzero unregistered ID from the next one on. |
| `Tracker.Tracker.ChildrenByParent` | multirule/multirule.go:276-286 | Lists exactly the latest-parent edges. |
| `Tracker.Tracker.PropagateToDescendants` | multirule/multirule.go:288-312 | The worklist ends for any parent graph with exactly the processes reached from a direct match tagged. |
| `Tracker.Tracker.RegisterRule` | multirule/multirule.go:73-112 | The new ID is fresh, and goes to a process iff it is reachable from a direct match along latest-parent edges; other IDs stay. |
| `Tracker.Tracker.UnregisterRule` | multirule/multirule.go:117-130 | Removes the ID from the rules and from every process, and nothing else. |
| `Tracker.Tracker.ApplyProcess` | multirule/multirule.go:256-274 | An observed process gets exactly the IDs of its parent's latest lifetime and of its direct matches, and becomes the latest lifetime of its PID; nothing else changes. |
| `Tracker.Tracker.ApplyProcessEvent` | multirule/multirule.go:152-167 | Exits forget the lifetime and only its own PID entry; other events observe, unless the key is zero. |
| `Tracker.ClosedHoldsReached` | multirule/multirule.go:288-312 | A set closed under children that holds the direct matches holds everything reached. |
| `TrackerHistory.LatestIsLastSeen` | multirule/multirule.go:256-274 | After any events, with PIDs reused at will, the tracker follows each PID to the lifetime last seen with it, unless that one exited. |
| `TrackerHistory.TrackedAsSeen` | multirule/multirule.go:152-167 | After any events the tracker holds exactly the lifetimes seen and not exited, each with exactly the IDs of the rules that matched its last sighting or, in turn, its parent's latest lifetime at that moment. |
| `TrackerOrder.RegisterObserveCommute` | multirule/multirule.go:73-112 | For any parents-first observations with distinct PIDs, wherever the rule is registered among them, each process ends with the ID iff it or an observed ancestor matches. |
| `Regexps.DecodeUtf8` | policy.go:94-100 | Reading encoded text rune by rune gives it back, so the bytes of a literal determine it. |
| `Regexps.ExactCommFromRegexp` | policy.go:82-107 | Accepts exactly anchored sequences of case-sensitive literals whose bytes make a valid comm, and returns those bytes. |
| `Regexps.ExactCommMeansEquality` | policy.go:77-107 | Under unanchored search an accepted expression matches a text iff the text's bytes equal the returned comm. |
| `Promotion.CompileRegexpList` | cmd/main.go:993-1004 | Fails iff some item does not parse; otherwise all parses in order. |
| `Promotion.CompileDefaultCheckRules` | cmd/main.go:968-1032 | Fails iff some item of the four lists does not parse; otherwise the matcher of all of them. |
| `Promotion.PromoteCommRules` | cmd/main.go:914-932 | Splits the comm expressions into promoted rules and fallback items, in order. |
| `Promotion.ModeByRules` | cmd/main.go:943-950 | By the rule lists alone: authoritative iff every rule is an exact comm rule, else positive-only iff some rule is, else userspace-only. |
| `Promotion.CompileDefaultKernelPolicy` | cmd/main.go:903-959 | Errors exactly on an unparsable item or more than 1024 promoted rules; otherwise an acceptable policy whose mode is authoritative, positive-only or userspace-only as nothing, something or all is left to the fallback. |
| `Promotion.AuthoritativeExactIff` | cmd/main.go:1038-1067 | An authoritative policy's rules decide a process as the checker does iff its comm is neither an empty one that a rule names nor a malformed one that reads as one a rule names. |
| `Promotion.RuleMatchSoundIff` | cmd/main.go:1038-1067 | In every mode a rule match is a checker match with the same priority and mark iff it is not an empty comm that a rule names and nothing else about the process matches. |
| `Promotion.KernelDecidesAsChecker` | cmd/main.go:883-959 | End to end: the exec lookup in the normalized, installed policy decides as the checker on every non-empty well-formed comm. |
| `Promotion.EmptyCommDiffers` | cmd/main.go:1057-1060 | With the rule `^$` the kernel marks a process with an empty comm and the checker does not. |
| `Promotion.MalformedCommDiffers` | cmd/main.go:1057-1067 | With a rule for U+FFFD the checker marks a comm of one bad byte and the kernel does not. |
| `Watcher.HasActiveAncestor` | cmd/main.go:807-825 | True iff some proper ancestor in the snapshot is marked, cycles included. |
| `Watcher.FindRoots` | cmd/main.go:789-799 | Exactly the listed live marked processes without a marked ancestor, in PID order. |
| `Watcher.ActiveWatcherChildren` | cmd/main.go:859-881 | Ends on every snapshot; lists, once each and from left to right, exactly the marked processes with only unmarked ones between. |
| `Watcher.PrintWatcherNode` | cmd/main.go:827-857 | Ends on every snapshot; prints every marked process at or below the node once, in preorder, each one level under its nearest marked ancestor. |
| `Watcher.PrintWatcherTree` | cmd/main.go:769-805 | Prints exactly the marked processes at or below a root, once each, tree after tree by PID, with their own values; reports whether there was a root. |
| `Watcher.SubtreesDisjoint` | cmd/main.go:827-857 | Below a root the subtrees of different marked children share nothing and exclude their parent. |
| `Watcher.RootsDisjoint` | cmd/main.go:801-803 | No process is below two roots. |
| `Watcher.PrintedIff` | cmd/main.go:807-825 | A live marked listed process is printed iff no marked process at or above it is its own ancestor. |
| `Watcher.MarkedCycleHidden` | cmd/main.go:807-825 | Of two processes that are each other's parent, a marked one is not printed. |
| `Watcher.ForestPrintsAll` | cmd/main.go:769-805 | When parent links form a forest every live marked listed process is printed. |

## Left out

- Daemon start and stop, eBPF loading, pinning, links and the ring-buffer reader (`mark.go:209-485`): I/O.
- Reading procfs and the clock source: process lists, liveness and clock readings are inputs or nondeterministic.
- Callbacks, logging and the `ProcessUpdate` and `ProcessEvent` streams: which changes a consumer sees is not modelled.
- Events of unknown type (`mark.go:727-738`): they only log.
- A marker without BPF maps (nil maps, used in tests).
- The HTTP control server, JSON types, flags and the admin page: user interface.
- `fwmark`: system calls with little state.
- `CombineChecks` and the tracker's read-only queries (`RuleIDs`, `Matches`, `Snapshot`): easy members.
- Generated bpf2go files, struct layout and byte order.
- Go's regexp parser, the splitting of comma-separated lists and `ParseUint`: the model starts from parsed items. Literal runes are Unicode scalar values, so patterns that spell a surrogate code point are outside the model.
- Kernel entries inserted while a refresh iterates are not visited by it in the model; Go's map iterator may or may not return them.
- `Marker.Marker.MergeKernelEntries`: visits each key present when the iteration starts once, because a BPF hash iteration that restarts or repeats keys is not modelled.
- `Marker.Marker.CollectOld`: the mirror entry and the kernel entry of one tombstone go in one step, and each kernel deletion may fail on its own, because a batch delete and its fallback give no stronger guarantee per key.
- `Marker.Marker.RefreshMirrorFromKernel`: `allOk` is a ghost result saying that no repair write failed; the source only logs such failures.
- `Watcher.PrintWatcherNode`: the line's indentation is its depth; the box-drawing characters, the process name and the mark format are not modelled.
- Map capacity of `processes` (32768 entries): a full map is a failed write.

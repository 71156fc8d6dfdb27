# A verified model of ADL Lite's event chains

ADL Lite keeps every capability as an append-only, hash-linked `EventChain`; status, confidence, merges,
archives, anchors, relations and challenges are derived from such chains. This project models that logic in
Dafny and proves what it keeps. Verify everything with `dafny verify dfyconfig.toml`.

The model follows the source's form. An object whose methods update its fields is a class (`Event`,
`EventChain`, `ColdStorage`, `MerkleTree`, `TransparencyAnchor`, `DiGraph`, both graph adapters, `WarmIndex`,
`EventsTable`, `ChallengeManager` and its states, `RateLimiter`, `RealtimeWatcher`, `MARGINCalibrator`,
`SideEffectQueue`), its loops are loops, and every method is proved against a function of values. What the
source promises is then proved about those functions, over every input or every run.

| files | about |
|---|---|
| `Basics`, `Events`, `BodyRules`, `DerivedState`, `Integrity`, `EventChain` | appending, the fifteen axioms, the incremental verifier, status and confidence caches |
| `HashedFields`, `TailHash` | which fields an event hash covers and how numbers are rounded for it, that tampering shows, what the tail hash fixes |
| `Crdt`, `CrdtLaws`, `CrdtBrackets`, `CrdtFolds`, `CrdtTrees`, `CrdtOrders`, `CrdtBracketings` | merging replicas, and when order and bracketing of merges do not matter |
| `CrdtState`, `CrdtLattice`, `ReplicaMerge`, `MergeEffect` | derived state under merging, the merge on event objects and what it leaves of its inputs |
| `SyncManager`, `SyncObjects`, `SyncMerge`, `PullEffect`, `Relinking`, `SideEffects` | edge and center synchronisation, on values and on event objects, and when a relinked chain still verifies |
| `ColdStorage`, `Archiving`, `DeepCheck`, `EventsTable`, `ChainRetrieval` | cutting out the middle of a chain, what the deep check of its file guarantees, the events table, and putting the chain back |
| `Merkle`, `MerkleRoots`, `KeyRegistry` | the Merkle tree with repeated last nodes, what its root fixes, and batch anchoring |
| `Reachability`, `GraphBackends`, `WarmIndex` | two breadth-first searches, and a graph that mirrors a table |
| `ChallengeRules`, `Challenge`, `ChallengeProofs`, `ChallengePhases`, `ChallengeMetrics` | the commit-reveal protocol, and its phases, issues and metrics said of the events alone |
| `Base58`, `DidResolver`, `ApiAuth`, `Realtime`, `Calibration`, `Confidences` | the smaller cores with arithmetic |

Assumptions. SHA-256 is an unknown function: of an event hash only its length of 64 characters is used.
Where security of the hash matters, the theorem says "or two different contents have one hash" and names
where they come from, so nothing is assumed about collisions. Timestamps are instants of one total order,
floats are reals, calls are sequential, and `verify_integrity` is called without a registry. Clocks, fresh
ids, the outcome of a rebuild and of a network effect are parameters.

## Where the code differs from what is said about it

Each of these is proved, with the exact condition under which the code does what is promised.

- The incremental verifier records the id of an event before it checks axioms 6 to 15. An event rejected for
  one of these is skipped by the next call if the chain has grown meanwhile, so a True verdict can be wrong
  (`Integrity.IncrementalVerdict`, `Integrity.SkippedFailure`).
- `archive` resets the caches without rebuilding them. A REGISTER appended to an archived chain makes its
  status Provisional again (`DerivedState.StatusAfterArchiveIff`), and a confidence claimed by an archived event
  can be lowered (`Archiving.ConfidenceAfterArchiveIff`). `retrieve_chain` restores both
  (`EventsTables.RetrievedStateIsWhole`).
- The archive file and the events table hold neither signatures nor proofs. A chain rebuilt from them fails
  axiom 14 as soon as an EXECUTE, ATTEST or CHALLENGE event went through them; and with `keep_last_n` = 0 it
  fails axiom 3, because the ARCHIVE event is linked to the genesis event (`Archiving.RejoinedVerifiesIff`).
  The trimmed chain fails axiom 7 when the clock is behind its tail (`Archiving.TrimmedVerifiesIff`).
- `_store_events` never removes a row. The rows of events stored before they were archived are selected again
  and come back twice, so the retrieved chain fails axiom 5 (`EventsTables.RetrievedVerifiesIff`,
  `EventsTables.RetrievedAfterRunIff`); and an order of equal timestamps that the database is free to choose
  breaks its links (`EventsTables.RetrievedInOrderIff`).
- With `full=True` the deep check compares the last archived event with the second event of the list. In a chain
  that `retrieve_chain` has put together that is the first archived event, so such a chain fails the deep check while
  its archive is intact (`Archiving.RejoinedDeepCheckIff`).
- An event whose actor is empty comes back from the table as one by "system" and fails axiom 4
  (`EventsTables.EmptyActorComesBack`); such an event fails axiom 6 before.
- An older compressed archive hides a newer plain one (`Archiving.UnarchiveFindsIff`).
- `merge_event_chains` is said to be commutative. Two chains commute exactly when at every instant the surviving
  events of one are the first surviving events of the other (`CrdtLaws.MergeCommutesIff`). It is said to be
  associative. Three chains are exactly when, in the union of the first two, no two events whose versions surviving
  the third share an instant stand out of time order (`CrdtBrackets.AssociatesIff`); that can fail, because an
  earlier merge has already sorted by the older versions (`CrdtBrackets.BracketingMatters`). On chains that agree on
  the events they share every bracketing will do (`CrdtBrackets.MergeAssociates`, `CrdtBracketings.BracketingIsIrrelevant`).
- For any number of chains, whatever versions of their events they hold, it gives one result for every order of its
  arguments exactly when every order and bracketing of pairwise merges gives it, and exactly under the three
  conditions of `CrdtOrders.AnyOrderIff`; in a fixed order every bracketing gives one result exactly under that of
  `CrdtBracketings.AnyBracketingIff`. All merges of the same events, with repetition, agree exactly when no two
  surviving events share an instant (`CrdtOrders.FactsDecideIff`).
- `_merge_two_chains` appends its inputs' own event objects. An input still verifies exactly when its neighbours
  stay joined (`MergeEffects.MergeInputs`, `MergeEffects.MergeLeavesInputsIff`).
- `CRDTState.merge` takes the maximum of the counters, but merging chains counts the events of both, so the state
  of the merged chain is the merge of the states exactly when, for validations and for evidence, one side has all
  those of the other (`CrdtLattice.StatesJoinIff`). The counter named `validator_count` counts VALIDATE events
  (`CrdtLattice.FromChainCounts`).
- `SyncManager.merge` keeps the version given first and sorts by a hash that depends on the chain an event stands
  in: two merges agree exactly when they take the same facts and order each instant alike
  (`SyncMerges.MergedEqualIff`, `SyncMerges.MergeCommutesIff`).
- `pull` appends the center's own event objects and relinks them: an archive-free center still verifies exactly when
  it continues the edge's chain (`SyncObjects.Pull`, `PullEffects.PullLeavesSenderIff`), any center, trimmed ones
  included, exactly when its neighbours stay joined (`Relinking.PullLeavesAnySenderIff`).
- A chain whose last event has an empty id verifies. Pushed, pulled or merged it fails as soon as another event
  comes behind it (`SyncManagers.ReceivedVerifiesIff`, `SyncMerges.MergedVerifiesIff`).
- A Merkle root fixes the leaves only up to repetitions of last nodes and up to the height: `from_dict`, which is
  to reject tampered dumps, accepts exactly those that agree in this sense (`MerkleRoots.SameRootIff`,
  `MerkleRoots.DumpAcceptedIff`). `verify_proof` does not use `leaf_index`: the position is what the sides spell
  (`Merkle.ProofSpellsIndex`).
- A challenge event whose timestamp cannot be read counts as made at its deadline, so a challenge that was
  void can come back (`ChallengeProofs.UnreadableStampRevives`, `ChallengeProofs.VerdictMovesIff`).
- `get_retry_after` is documented to return 0 for a client that is not limited. It returns at least 1 whenever
  the client has a request in the window; and because it truncates, waiting as long as told need not be enough
  (`RateLimits.RetrySufficesIff`).
- The fan-out alert is not raised once but at every flagged event while there are exactly five recipients
  (`RealtimeWatchers.FanOutAlerts`).
- `update_accuracy` of a calibrator that has not read its file yet overwrites it: everybody else in the file is back at
  one half (`Calibrations.UnreadFileIsLost`).
- `ewma_confidence` with a factor of one is said to equal the last-VALIDATE strategy. It follows the last vote
  that raised its actor's maximum, and among votes of one instant the actor that joined last
  (`Confidences.AlphaOneIsLastDeciding`, `Confidences.AlphaOneIsLastVoteIff`).

## Model

| member | source | states |
|---|---|---|
| Events.AppendAllSplit | adl_lite/models.py:364-390 | appending two batches is appending the second behind the result of the first |
| Events.Reappend | adl_lite/models.py:364-390 | appending the events of an append-built chain again from scratch gives back the same records, links and hashes |
| Events.AppendAllFacts | adl_lite/models.py:364-390 | events that already are in time order keep their timestamps when appended |
| Events.BuiltIsTimeOrdered | adl_lite/models.py:364-390 | timestamps never go back along an append-built chain, because `append` lifts a late timestamp |
| Events.AppendedTimes | adl_lite/models.py:364-390 | an appended event gets the latest of its own timestamp and those of the events before it: it is lifted, and no further |
| BodyRules.BodyOkIff | adl_lite/models.py:876-958 | the axioms on a single event, kind by kind: its actor is not blank, and it carries the action, the fields, the proof, the verdict with its evidence or the challenge phase with its fields that its kind asks for |
| Events.BuiltVerifiesIff | adl_lite/models.py:768-964 | a chain built by `append` passes all axioms exactly when its events pass those that concern one event, share the concept, have distinct ids and non-empty ids up to the last but one |
| EventChains.Event.PostInit | adl_lite/models.py:249-251 | a missing hash becomes that of every record that agrees with this one in each hashed field, and of no other but for a collision; an existing one is left |
| HashedFields.RoundingIff | adl_lite/models.py:47-60 | rounding leaves structure, keys and all leaves but numbers alone and moves each number to the nearest millionth, at most half a millionth away, ties to the even one; and it is the only thing that does |
| HashedFields.PayloadRoundingIff | adl_lite/models.py:284-284 | the same for a whole payload |
| HashedFields.HashCoversIff | adl_lite/models.py:253-291 | two records have one hashed content exactly when they agree in id, concept, type, actor, timestamp, payload but for what rounding removes, previous id and previous hash |
| HashedFields.SameHashMeans | adl_lite/models.py:253-291 | records that agree in these fields have one hash; two that bear their own hash and bear the same one agree in these fields, or their different contents collide |
| HashedFields.HashIsBorne | adl_lite/models.py:253-291 | a record whose hash fits bears the hash of every record that agrees with it in these fields, and of no other but for a collision |
| HashedFields.TamperingShows | adl_lite/models.py:853-855 | a verifying chain in which one record is replaced by another that bears the same hash and differs in any hashed field no longer verifies, or the two contents collide |
| EventChains.EventChain.Append | adl_lite/models.py:364-390 | succeeds exactly on an event of the chain's concept with a readable confidence; then the new list is the old one followed by the relinked, retimed, rehashed event and both caches are exact |
| EventChains.EventChain.Relink | adl_lite/models.py:364-390 | link, lifted timestamp and fresh hash are exactly those of the functional `Link` |
| EventChains.EventChain.UpdateCrdtCaches | adl_lite/models.py:392-418 | caches that were exact for the list without its last event are exact with it |
| EventChains.EventChain.RebuildCrdtCaches | adl_lite/models.py:436-447 | after a rebuild both caches equal recomputation over all events; it raises exactly on an unreadable confidence |
| EventChains.EventChain.Status | adl_lite/models.py:475-493 | with exact caches the status read is the one the events call for, kind by kind |
| EventChains.EventChain.Confidence | adl_lite/models.py:515-532 | with exact caches the confidence read is the greatest that a VALIDATE or SNAPSHOT reports, cut to [0, 1] |
| EventChains.EventChain.ComputeStatusFromEvents | adl_lite/models.py:495-513 | the loop finds the status the events call for: Archived by an ARCHIVE, else Deprecated, Validated or Forked by an event of that kind, else Provisional |
| EventChains.EventChain.ComputeConfidenceFromEvents | adl_lite/models.py:534-542 | the loop finds the greatest confidence that the events report, cut to [0, 1], and raises exactly when one cannot be read |
| EventChains.EventChain.CheckHead | adl_lite/models.py:831-872 | axioms 1 to 5 of one event, with its position-dependent archive exceptions; an event that passes bears the hash of its own hashed fields, which no other fields have but for a collision |
| EventChains.EventChain.CheckTail | adl_lite/models.py:876-958 | axioms 6, 7, 9, 10, 11 and 13 to 15 of one event |
| EventChains.EventChain.ScanStart | adl_lite/models.py:782-819 | the scan starts behind the recorded ids exactly when they are a proper prefix of the present ids |
| EventChains.EventChain.ScanSuffix | adl_lite/models.py:828-958 | verdict and recorded ids after the loop are those of the functional scan, on early return too |
| EventChains.EventChain.VerifyPrefix | adl_lite/models.py:768-964 | verdict and recorded ids are those of the verifier state machine, for whatever was recorded before |
| DerivedState.MaxOrderIsLeastBound | adl_lite/models.py:495-513 | the derived status is attained by some event and bounds all, whatever their order |
| DerivedState.OrderByKinds | adl_lite/models.py:392-418 | the derived order is 5 with an ARCHIVE, else 4 with a DEPRECATE, 3 with a VALIDATE, 2 with a FORK, 1 with a REGISTER, else 0 |
| DerivedState.StatusByKinds | adl_lite/models.py:495-513 | the derived status is Archived iff some ARCHIVE; Deprecated iff some DEPRECATE and no ARCHIVE; Validated iff some VALIDATE and neither; Forked iff some FORK and none of these; Provisional otherwise; and no other status is called for |
| DerivedState.MaxConfidenceIsLeastBound | adl_lite/models.py:534-542 | the derived confidence is attained by some event and bounds all |
| DerivedState.ConfidenceByEvents | adl_lite/models.py:534-542 | the derived confidence is the greatest number, or truth value, that a VALIDATE or SNAPSHOT gives in its payload, cut to [0, 1], and zero without any; and it is the only such value |
| DerivedState.NeverDecreases | adl_lite/models.py:392-418 | along every append-only run neither status nor confidence decreases |
| DerivedState.StatusReadExact | adl_lite/models.py:475-493 | a lagging status cache misreports exactly when it is neither at its default nor, up to the two lowest orders, the maximum |
| DerivedState.StatusAfterArchiveIff | adl_lite/cold_storage.py:189-190 | after an archive, which resets the caches without rebuilding them, the status stays Archived exactly when nothing lifecycle-related was appended or the chain was archived again |
| Archiving.ConfidenceAfterArchiveIff | adl_lite/models.py:515-532 | after an archive and further appends the confidence read is that of the whole history exactly when the appended events claim as much as any before them, or claim none, everything left is readable, and the archived events claim no more than the kept ones |
| Archiving.ConfidenceAfterArchive | adl_lite/cold_storage.py:113-192 | the same on a chain object that is archived, appended to and read |
| Integrity.ScanMeaning | adl_lite/models.py:828-958 | the scan is True exactly when every event from its start passes, and otherwise stops at the first bad event: before recording it on axioms 1 to 5, after recording it on the later ones |
| Integrity.VerifyIsScan | adl_lite/models.py:782-828 | a call is the scan from the start that the recorded ids leave, and records the ids that it passed |
| Integrity.WellFormedStepwise | adl_lite/models.py:768-964 | the fifteen axioms over the whole list hold exactly when every position passes its own checks |
| Integrity.RecheckIsStateless | adl_lite/models.py:790-812 | when nothing was appended, or a recorded id changed, the verdict is the stateless one |
| Integrity.InvHolds | adl_lite/models.py:768-964 | in every run of appends, verifications and replacements, the recorded ids are a prefix whose events pass axioms 1 to 5, and all later axioms unless an earlier verdict was False because of them |
| Integrity.IncrementalVerdict | adl_lite/models.py:768-964 | in every run the incremental verdict equals the stateless check of all axioms, except exactly when the list has grown since the last verification, one of the events recorded by then fails axioms 6 to 15, and every event since passes |
| Integrity.SkippedFailure | adl_lite/models.py:873-878 | the exception occurs: a bad first event is rejected, accepted once a good event is appended, and rejected again |
| TailHash.SameTailSameHistory | adl_lite/models.py:253-291 | two hash-linked lists that start at a genesis and end in the same hash have as many events, which agree one by one in every hashed field, or two different contents among theirs have one hash |
| TailHash.TailHashFixesHistory | adl_lite/models.py:253-291 | two verifying archive-free chains with the same tail hash have the same length and agree event by event in id, concept, type, actor, timestamp, rounded payload, links and hash, or exhibit a hash collision |
| Crdt.MergeIsWinners | adl_lite/crdt.py:142-200 | a pairwise merge holds each id once, with its latest version, in time order |
| Crdt.EvalIsWinners | adl_lite/crdt.py:203-248 | so does a merge of N inputs under every bracketing |
| CrdtLaws.LastListedStays | adl_lite/crdt.py:165-167 | the dictionary holds the version listed last under each id |
| CrdtLaws.MergeKeepsIff | adl_lite/crdt.py:169-184 | a pairwise merge keeps an event of the first chain exactly when the second has no version of it at least as late, and one of the second exactly when the first has no later version; it holds nothing else |
| CrdtTrees.EvalListsLatest | adl_lite/crdt.py:203-248 | and, whatever ties, every bracketing lists one latest version of each id |
| CrdtOrders.MergeOrderIsIrrelevant | adl_lite/crdt.py:142-248 | two merges of the same events, in any order, bracketing and repetition, give the same chain, links and hashes included, when no two surviving events share an instant |
| CrdtOrders.FactsDecideIff | adl_lite/crdt.py:203-221 | all merges of the same events give one chain exactly then |
| CrdtOrders.AnyOrderIff | adl_lite/crdt.py:203-248 | for any number of chains with any versions of their events: every order of the arguments gives one result exactly when every order and bracketing of pairwise merges does, and exactly when no two chains hold different last versions of one event, the chains in last versions are pairwise in line at every instant, and in the union of any two no events that end up at one instant stand out of time order |
| CrdtOrders.RecordsInAnyOrderIff | adl_lite/crdt.py:193-248 | the same for the written chains, links and hashes included |
| Crdt.MergeIsIdempotent | adl_lite/crdt.py:142-200 | merging an append-built chain with distinct ids with itself returns it, hashes included |
| CrdtLaws.SortIsStable | adl_lite/crdt.py:186-189 | the sort keeps events of one instant in the order in which they came |
| CrdtLaws.UnionShape | adl_lite/crdt.py:169-184 | the event map holds the events of the first chain in their surviving versions, then what is new in the second |
| CrdtLaws.MergeCommutesIff | adl_lite/crdt.py:203-221 | two chains of distinct ids, whatever they share, merge to the same events in both orders exactly when at every instant the surviving events of one are the first surviving events of the other |
| CrdtLaws.RecordsCommuteIff | adl_lite/crdt.py:142-200 | and to the same chain, links and hashes included, exactly then |
| CrdtLaws.AgreeingMergeCommutesIff | adl_lite/crdt.py:203-221 | replicas that agree on shared events commute exactly when at every instant the events of one are the first events of the other |
| CrdtLaws.DisjointMergeCommutesIff | adl_lite/crdt.py:203-221 | for chains with no common id: exactly when no event of one is at the same instant as an event of the other |
| CrdtOrders.AgreeingOrderIff | adl_lite/crdt.py:203-248 | for chains that agree on shared events only one condition is left: of any two chains, at every instant the events of one are the first events of the other |
| CrdtBrackets.AssociatesIff | adl_lite/crdt.py:203-221 | three chains of distinct ids, whatever they share, merge to the same events in both bracketings exactly when in the union of the first two no two events whose versions surviving the third share an instant stand out of time order |
| CrdtBrackets.RecordsAssociateIff | adl_lite/crdt.py:193-221 | and to the same chain, links and hashes included, exactly then |
| CrdtBracketings.AnyBracketingIff | adl_lite/crdt.py:203-248 | for any number of chains in a fixed order: every bracketing gives the result of `merge_event_chains` exactly when, in every block of neighbouring chains that leaves a later chain out, the events that first appear there and end up at one instant are united in time order |
| CrdtBrackets.BracketingMatters | adl_lite/crdt.py:203-221 | that condition can fail: for any two events there are three chains that the two bracketings merge in different orders |
| ReplicaMerge.UnionEvents | adl_lite/crdt.py:169-184 | the event map holds, in insertion order, for each id the version that the functional union keeps |
| ReplicaMerge.MergeTwo | adl_lite/crdt.py:142-200 | on chain objects: the result is the chain appended from the merged facts; the input events keep body and timestamp, and exactly those become events of the merged chain that the other side has no later version of, the second chain's on a tie; all others are untouched; different concepts are refused |
| MergeEffects.MergeInputs | adl_lite/crdt.py:169-200 | what the lists of both inputs hold after a merge of chains that share no event object: the merged chain's records for the events taken, the old ones for the superseded |
| MergeEffects.MergeLeavesInputsIff | adl_lite/crdt.py:195-200 | each verifying input, archived ones included, still verifies exactly when all its neighbours stay joined, or two contents collide |
| Relinking.RelinkedVerifiesIff | adl_lite/models.py:364-390 | a verifying chain some of whose event objects were appended to another chain still verifies exactly when its times are in order and its neighbours stay joined: both left alone, both taken one behind the other, or meeting where both lists hold the same content -- or two contents collide |
| ReplicaMerge.MergeEventChains | adl_lite/crdt.py:203-248 | no chain and chains of different concepts are refused; otherwise it succeeds exactly when no append of the fold raises, superseded versions included, and gives the functional fold |
| CrdtStates.MergedCovers | adl_lite/crdt.py:142-200 | the merged chain's ids are the union of the ids, and every merged event comes from an input |
| CrdtStates.StateOfMerge | adl_lite/crdt.py:142-200 | when same-id events agree on type and payload, the merged status is the maximum of the two statuses and the merged confidence the maximum of the two confidences |
| CrdtStates.FromChainAgrees | adl_lite/crdt.py:85-139 | `CRDTState.from_chain` raises exactly on an unreadable confidence or a DEPRECATE after an ARCHIVE, and otherwise has the chain's status order |
| CrdtStates.FromChainRaises | adl_lite/crdt.py:85-139 | it raises exactly at the first event it cannot take: an unreadable confidence, or else a DEPRECATE behind an ARCHIVE, with that error |
| CrdtLattice.MergeIsLeastUpperBound | adl_lite/crdt.py:76-83 | merging two states gives their least upper bound: commutative, associative and idempotent |
| CrdtLattice.ApplyingGrows | adl_lite/crdt.py:85-121 | whatever `apply_event` lets through is at least the state before it, in every field |
| CrdtLattice.FromChainCounts | adl_lite/crdt.py:104-139 | the fold counts VALIDATE and EVIDENCE events and takes the greatest reported confidence |
| CrdtLattice.CountOfMerge | adl_lite/crdt.py:104-200 | when same-id events agree on type and payload, the merged chain counts the events of a kind of both sides, shared ones once |
| CrdtLattice.StatesJoinIff | adl_lite/crdt.py:76-200 | then the merged chain's state has the joined status and confidence; it is the merge of the two states exactly when, for VALIDATE and for EVIDENCE, one side has all those of the other |
| SyncManagers.DiffIsFilter | adl_lite/sync_manager.py:191-201 | the diff holds exactly the sender's events whose id the receiver lacks |
| SyncManagers.ReceivedShape | adl_lite/sync_manager.py:204-235 | the receiver's old chain survives as an unchanged prefix with its hashes; behind it stand the new bodies |
| SyncManagers.ReceivedIds | adl_lite/sync_manager.py:204-235 | the receiver ends with the union of both id sets, each id once |
| SyncManagers.ReceivedInOrder | adl_lite/sync_manager.py:204-235 | what is new is appended in the order of the sender's timestamps, and of its hashes at one instant; each event keeps its time unless the receiver's old chain ends later |
| SyncManagers.ReceivedVerifiesIff | adl_lite/sync_manager.py:204-235 | what comes out of two verifying chains verifies exactly when every event but the last, in the order in which they are appended, has an id |
| SyncManagers.PushThenPullConverges | adl_lite/sync_manager.py:191-235 | after push then pull both sides have the same id set and both diffs are empty |
| SyncManagers.PushThenPullVerifiesIff | adl_lite/sync_manager.py:191-235 | when each of the two results verifies, and each receiver's old chain is a prefix of its result |
| SyncObjects.Push | adl_lite/sync_manager.py:203-218 | copies every event, touches neither chain, and builds exactly the receiver's list followed by the new events in (timestamp, hash) order |
| SyncObjects.Pull | adl_lite/sync_manager.py:220-235 | builds the same kind of list out of the edge's and the center's own event objects; the center's own chain then holds the relinked records of what was taken and is otherwise as it was, shared objects included |
| PullEffects.PullLeavesSenderIff | adl_lite/sync_manager.py:231-234 | after a pull between archive-free chains the sender's own chain still verifies exactly when it continues the receiver's old chain, or two contents collide |
| Relinking.PullLeavesAnySenderIff | adl_lite/sync_manager.py:220-235 | after a pull from any verifying sender, trimmed ones included, its chain still verifies exactly when its times are in order and its neighbours stay joined, or two contents collide |
| SyncMerges.MergedIds | adl_lite/sync_manager.py:147-188 | the merged chain is append-built and holds the union of the ids, each once |
| SyncMerges.MergedFactsIff | adl_lite/sync_manager.py:161-172 | the events of the merged chain are exactly those listed first under their ids, over all the lists in their order |
| SyncMerges.MergedVerifiesIff | adl_lite/sync_manager.py:147-188 | merging lists of acceptable events gives a chain that verifies exactly when every event but the last, in sorted order, has an id |
| SyncMerges.StateOfMerged | adl_lite/sync_manager.py:147-188 | status and confidence of the merged chain are those of all the events together, when versions of one id agree on type and payload |
| SyncMerges.MergedEqualIff | adl_lite/sync_manager.py:161-188 | two merges, of any lists in any order, give the same chain, hashes included, exactly when they take the same facts and put the facts of each instant in the same order: by hash, equal hashes as they are collected |
| SyncMerges.MergeDependsOnFacts | adl_lite/sync_manager.py:161-188 | the merged chain depends on the set of facts alone when same-id records share their fact, whatever their links and hashes, and no two ids share an instant |
| SyncMerges.MergeIgnoresOrder | adl_lite/sync_manager.py:174-188 | or when records that share an id are identical and no two records tie on (timestamp, hash) |
| SyncMerges.CommutingMeansAgreeing | adl_lite/sync_manager.py:161-172 | the version given first wins, so two chains that merge alike in both orders agree on every event they share |
| SyncMerges.MergeCommutesIff | adl_lite/sync_manager.py:161-188 | for any two lists of distinct ids the order does not matter exactly when they agree on every event they share and the events of each instant come out in the same order |
| SyncMerges.DistinctInstantsCommuteIff | adl_lite/sync_manager.py:161-188 | when no two ids share an instant, exactly when they agree on every event they share |
| SyncMerges.Merge | adl_lite/sync_manager.py:147-188 | on chain objects: collects, sorts, copies and appends; nothing that exists is changed, and what a common ancestor has under an id is taken |
| SideEffects.SideEffectQueue.Drain | adl_lite/sync_manager.py:86-118 | every effect is tried once, in order, those included that the executor enqueues meanwhile; exactly the failed ones stay queued, in their order; the counts add up |
| SideEffects.EachTriedOnce | adl_lite/sync_manager.py:96-107 | the attempts of a drain are what waited followed by what was enqueued meanwhile |
| SideEffects.AnswersInOrder | adl_lite/sync_manager.py:96-107 | the k-th attempt has the outcome of the k-th answer of the executor, and fails without one |
| SideEffects.NothingLost | adl_lite/sync_manager.py:86-118 | no effect is lost or doubled by a drain, those enqueued meanwhile included |
| SideEffects.QueueConserves | adl_lite/sync_manager.py:50-118 | over every run of arrivals and drains each effect that arrived was executed or still waits, as often as it arrived, and those that wait do so in the order of their arrival |
| ColdStorages.ColdStorage.Archive | adl_lite/cold_storage.py:113-192 | what stays in the chain, what goes to the file and the linked ARCHIVE event, on all paths, a negative keep_last_n and the index error on an empty chain included; caches and verifier state are reset |
| ColdStorages.ArchiveMeaning | adl_lite/cold_storage.py:130-192 | what such a step comes to for a caller: genesis and tail stay; the concept's file, and no other, is written and holds the events in between without signature and proof; behind them stands an ARCHIVE event, linked, not older than the tail, with pointer, path, format and count of what left |
| ColdStorages.ColdStorage.Unarchive | adl_lite/cold_storage.py:194-230 | the compressed file of the concept when there is one, else the plain one, else nothing; every event comes back as the file has it, with a fresh hash where it has none |
| Archiving.UnarchiveFindsIff | adl_lite/cold_storage.py:194-230 | what was just archived is found again exactly when it was written compressed, or no older compressed file of the concept hides it, or one that reads back the same |
| ColdStorages.ColdStorage.VerifyIntegrity | adl_lite/models.py:966-1023 | the prefix verdict and, when full, the file hashes, the links and hashes inside each archive, and its join to the hot tail |
| ColdStorages.ColdStorage.VerifyArchives | adl_lite/models.py:992-1022 | the deep check passes exactly when every archive in the chain is in order |
| Archiving.TrimmedVerifiesIff | adl_lite/cold_storage.py:154-192 | after a first archive of a verifying append-built chain, for every keep_last_n >= 0, the trimmed chain verifies exactly when the clock is not behind the last kept event |
| Archiving.TrimmedPassesDeepCheck | adl_lite/models.py:992-1023 | and the deep check passes against the file just written |
| DeepChecks.DeepCheckFixesArchive | adl_lite/models.py:992-1022 | a trimmed chain that passes the deep check, whatever its files hold by then: the file named has the digest of the archived events, and even a file of the same digest agrees with them from their end on in every hashed field, or a collision shows |
| Archiving.NothingArchivedPassesDeepCheck | adl_lite/cold_storage.py:130-152 | with nothing to archive the deep check passes as well |
| Archiving.RejoinIsOldList | adl_lite/memory.py:788-796 | genesis, archived events and hot tail rejoin to the old list followed by the ARCHIVE event, except for the signatures and proofs of the archived events; to exactly that list if and only if those had none |
| Archiving.RejoinedVerifiesIff | adl_lite/memory.py:788-796 | the rebuilt chain verifies exactly when keep_last_n > 0, the clock is not behind the tail, and no archived event is of a kind that must carry a proof |
| Archiving.RejoinedDeepCheckIff | adl_lite/models.py:1013-1021 | with its archive file intact the rebuilt chain passes the deep check exactly when its second event is an ARCHIVE event: otherwise that event, the first archived one, is taken for the first hot one |
| EventsTables.RowsOfRun | adl_lite/memory.py:338-397 | after any run of stores and deletions the rows of a concept are those of events of its chain |
| EventsTables.RowExistsIff | adl_lite/memory.py:338-397 | a row exists exactly for the events stored since the concept was last deleted; storing removes nothing |
| EventsTables.RetrievedInOrderIff | adl_lite/memory.py:739-796 | after the first archive, whatever the table held before and however the database orders equal timestamps, the retrieved chain verifies exactly when the answer is the trimmed chain in its order, keep_last_n > 0, and no event at all is of a kind that must carry a proof |
| EventsTables.RetrievedVerifiesIff | adl_lite/memory.py:739-796 | with distinct timestamps: exactly when keep_last_n > 0, the clock is not behind the tail, no event is of such a kind, and no row of an archived event was left in the table |
| EventsTables.RetrievedAfterRunIff | adl_lite/memory.py:727-796 | the same over every run of stores and deletions before the archive: the last condition is that no archived event was stored since the concept was last deleted |
| EventsTables.RetrievedStateIsWhole | adl_lite/memory.py:788-796 | whether it verifies or not, the retrieved chain has the status and the confidence of the whole history |
| EventsTables.LoadedIsStoredIff | adl_lite/memory.py:396-427 | storing a verified append-built chain and loading it gives it back, hash for hash and without signatures and proofs, exactly when the rows come back in its order, as they do when timestamps are distinct |
| EventsTables.EmptyActorComesBack | adl_lite/memory.py:396-427 | an event with an empty actor comes back from the table as one by `system`, and no longer fits its hash, or the two contents collide |
| EventsTables.EventsTable.StoreEvents | adl_lite/memory.py:366-394 | the loop puts each event's row under its id and removes none |
| EventsTables.EventsTable.Select | adl_lite/memory.py:739-752 | each row of the concept once, in time order |
| ChainRetrieval.RetrieveChain | adl_lite/memory.py:769-796 | the chain object built from the selected rows and the archive holds exactly the rejoined records, with exact caches; None exactly when nothing is selected |
| ChainRetrieval.LoadEventChain | adl_lite/memory.py:396-427 | the chain object built by appending the selected rows |
| ChainRetrieval.ArchiveStoreRetrieve | adl_lite/memory.py:727-796 | a first archive, the store and the retrieval on one chain object, table and archive: when the result verifies, and that its status and confidence are those of the whole history |
| Merkle.Build | adl_lite/merkle.py:49-60 | the loop builds the levels of the functional tree, odd levels completed by repeating the last node |
| Merkle.NewTree | adl_lite/merkle.py:42-47 | an empty leaf list is refused; otherwise the tree holds the levels over its leaves |
| Merkle.MerkleTree.Proof | adl_lite/merkle.py:67-95 | the loop over the levels builds the functional proof; an index out of range is an error |
| Merkle.VerifyProof | adl_lite/merkle.py:98-107 | the loop accepts exactly when climbing the siblings gives the root |
| Merkle.HeightBounds | adl_lite/merkle.py:49-60 | a tree over n > 1 leaves has height h with 2^(h-1) < n <= 2^h, and height 0 for one leaf |
| Merkle.MerkleCompleteness | adl_lite/merkle.py:49-107 | for every leaf list and valid index the proof names the index, the leaf and the root, is accepted, and has h siblings with 2^(h-1) < n <= 2^h |
| Merkle.RootByHalves | adl_lite/merkle.py:25-60 | over twice 2^k leaves the root is the hash of the left half's root in front of the right half's |
| Merkle.SidesAreDigits | adl_lite/merkle.py:67-95 | the sibling at height k is on the left exactly when the k-th binary digit of the index is one |
| Merkle.MerkleSoundness | adl_lite/merkle.py:97-107 | a proof as long as the tree is high that is accepted against the tree's root has the leaf at the position its sides spell, repeated nodes included, or exhibits a collision |
| Merkle.ProofSpellsIndex | adl_lite/merkle.py:67-95 | the sides of the proof for an index spell that index |
| Merkle.SameRootSameLevel | adl_lite/merkle.py:49-60 | two leaf lists of one length with the same root are equal, or exhibit a collision |
| Merkle.DumpIsAuthentic | adl_lite/merkle.py:118-128 | a dump accepted with a tree's root and as many leaves holds that tree's leaves, or exhibits a collision |
| Merkle.RepeatedLastLeaf | adl_lite/merkle.py:54-57 | the root does not fix the number of leaves: an odd list and the list with its last leaf repeated have one root |
| Merkle.TreeFromDict | adl_lite/merkle.py:118-128 | accepts exactly a dump without a recorded root, or one whose root is that of its leaves; without leaves a recorded root is an index error |
| MerkleRoots.NextOfCompleted | adl_lite/merkle.py:49-60 | writing out all repetitions of last nodes and hashing a level up can be done in either order |
| MerkleRoots.SameRootIff | adl_lite/merkle.py:49-65 | two lists of digests have one root exactly when, at the height of the lower tree, their levels with all repetitions written out are the same, or a collision shows |
| MerkleRoots.DumpAcceptedIff | adl_lite/merkle.py:118-128 | any dump with a tree's root is accepted exactly when, at the height of the lower of the two trees, its level with all repetitions written out is that of the tree, or a collision shows; an empty one raises |
| MerkleRoots.InnerLevelAccepted | adl_lite/merkle.py:118-128 | the dump of any inner level is accepted with the tree's root |
| TransparencyAnchors.AnchoredIsProvable | adl_lite/key_registry.py:286-295 | every anchored chain has an inclusion proof that is accepted and carries its summary and the anchor's root |
| TransparencyAnchors.BatchAcceptsAnchored | adl_lite/key_registry.py:304-340 | with distinct concept ids, `verify_batch` answers True for every chain just anchored |
| TransparencyAnchors.BatchVerdictIsSound | adl_lite/key_registry.py:304-340 | a True verdict for a chain, from a proof of full length, means that it has, event by event, the hashes of an anchored chain (no event at all when nothing was anchored), or exhibits a collision of SHA-256 |
| TransparencyAnchors.VerdictFixesHistory | adl_lite/key_registry.py:304-340 | and for chains whose hashes fit their contents, archived ones included, that an anchored chain has the same history, event by event in every hashed field, or a collision shows |
| TransparencyAnchors.BatchIsPointwise | adl_lite/key_registry.py:320-340 | with distinct concept ids the verdict of a chain depends on that chain and its own proof alone |
| TransparencyAnchors.LeavesInOrder | adl_lite/key_registry.py:226-238 | the leaves are the summaries of the chains in the order of their concept ids |
| TransparencyAnchors.LeavesIgnoreOrder | adl_lite/key_registry.py:233-238 | with distinct concept ids the leaves, and so the anchored root, do not depend on the order in which the chains are given |
| TransparencyAnchors.LastVerdictStands | adl_lite/key_registry.py:320-340 | of several chains of one concept the last one's verdict stands |
| TransparencyAnchors.TransparencyAnchor.Anchor | adl_lite/key_registry.py:240-280 | remembers the chains and the tree over their summaries, and returns its root |
| TransparencyAnchors.TransparencyAnchor.ExportProofs | adl_lite/key_registry.py:263-274 | with distinct concept ids every chain's exported proof is one made from the tree for a leaf that is its summary, which is what `verify_batch` needs |
| TransparencyAnchors.TransparencyAnchor.ProveInclusion | adl_lite/key_registry.py:286-295 | the proof of the first leaf that is the chain's summary, or nothing |
| TransparencyAnchors.TransparencyAnchor.VerifyInclusion | adl_lite/key_registry.py:297-302 | accepts exactly a proof of this chain's summary that climbs to its root |
| TransparencyAnchors.VerifyBatch | adl_lite/key_registry.py:304-340 | the loop fills exactly the functional verdicts, the last one for a repeated concept id |
| Reachability.ReachIsWalks | adl_lite/graph_backends.py:111-144 | what a search of depth d must return: the nodes other than the start that some undirected walk of at most d edges reaches |
| Reachability.SearchesAgree | adl_lite/graph_backends.py:65-71 | two searches that return that return the same nodes, equally many |
| GraphBackends.NetworkXGraphAdapter.Bfs | adl_lite/graph_backends.py:111-144 | the queue search terminates and returns exactly the nodes at undirected distance 1 to d, each once, nearer ones first, each with what some stored edge at it carries |
| GraphBackends.LevelSearch | adl_lite/graph_backends.py:207-239 | the level search terminates and returns the same nodes, each once, nearer ones first, each with a stored row's predicate and confidence |
| GraphBackends.SQLGraphAdapter.Bfs | adl_lite/graph_backends.py:207-239 | the table backend answers with that search, and with nothing for a negative depth |
| GraphBackends.SQLGraphAdapter.AddEdge | adl_lite/graph_backends.py:197-205 | a row whose source, predicate and target are taken is dropped; the pair is stored either way |
| GraphBackends.SameAdditionsSameEdges | adl_lite/graph_backends.py:108-205 | after the same additions both backends connect the same pairs |
| GraphBackends.GraphKeepsLast | adl_lite/graph_backends.py:108-109 | of several edges between two nodes the graph carries what the last one added says, and nothing else |
| GraphBackends.TableKeepsFirst | adl_lite/graph_backends.py:197-205 | of several rows of one source, predicate and target the table keeps the first, and nothing else |
| GraphBackends.FillBoth | adl_lite/graph_backends.py:108-205 | and so do the two adapter objects |
| WarmIndexes.WarmIndex.constructor | adl_lite/memory.py:183-230 | opening rebuilds the graph from the stored table, or leaves none |
| WarmIndexes.WarmIndex.BuildGraphFromStore | adl_lite/memory.py:251-277 | the rebuilt graph has an edge exactly where some row is, carrying a predicate stored there |
| WarmIndexes.WarmIndex.AddRelation | adl_lite/memory.py:481-501 | table and graph are extended together and stay mirrors |
| WarmIndexes.WarmIndex.InsertDocument | adl_lite/memory.py:281-310 | every relation of the document is added in order |
| WarmIndexes.WarmIndex.DeleteDocument | adl_lite/memory.py:338-360 | every row at the concept goes, and the graph loses exactly the edges at it |
| WarmIndexes.WarmIndex.GetRelated | adl_lite/memory.py:503-520 | whichever path answers, exactly the concepts within the depth in the table's pairs come back, each once, nearer ones first |
| WarmIndexes.WarmIndex.SqlBfs | adl_lite/memory.py:530-559 | the table path alone answers the same |
| WarmIndexes.Run | adl_lite/memory.py:251-360 | over every run of inserts, deletes and reopenings the table is the one the run determines and the graph, when there is one, mirrors it |
| WarmIndexes.TableAfterMeaning | adl_lite/memory.py:281-360 | after any run from an empty store a relation is in the table exactly when some inserted document brought it and neither of its concepts was deleted afterwards |
| WarmIndexes.TableRowsMeaning | adl_lite/memory.py:281-360 | down to the confidence: a row is in the table exactly when it is the first of its key that some insertion brought and no later deletion took |
| ChallengeManagers.ChallengeManager.Apply | adl_lite/challenge.py:126-147 | one event moves the states, the issues and the latest instant exactly as the functional step does, and raises at most one issue |
| ChallengeManagers.ChallengeManager.ApplyOpen | adl_lite/challenge.py:149-178 | refusals in their order, else a new open challenge |
| ChallengeManagers.ChallengeManager.ApplyReveal | adl_lite/challenge.py:180-207 | only the state of this challenge changes, to revealed or void |
| ChallengeManagers.ChallengeManager.ApplyAnswer | adl_lite/challenge.py:209-237 | only the state of this challenge changes, to answered or timed out |
| ChallengeManagers.ChallengeManager.ApplyChain | adl_lite/challenge.py:243-250 | a replay depends on the events alone, not on what the manager held |
| ChallengeManagers.ChallengeManager.DerivedPhase | adl_lite/challenge.py:252-272 | the phase of the held state at the given instant, else at the latest instant seen, else at the wall clock; unknown ids are an error |
| ChallengeProofs.ReplayIsDeclared | adl_lite/challenge.py:126-250 | for every event sequence and id, folding the events gives the state declared by three of them: the first acceptable open, its challenger's first reveal, and the first answer that is late or rightful |
| ChallengeProofs.AnsweredIff | adl_lite/challenge.py:180-237 | a challenge is answered exactly when its first acceptable open was followed by its challenger's first reveal, of the committed seed by the deadline, and by an answer within the window from the target, if one is set |
| ChallengePhases.PhaseIff | adl_lite/challenge.py:126-272 | for every event sequence, id, instant and phase the derived phase is that one exactly when the events call for it: open after the first acceptable open without a reveal by its challenger until the deadline, then void; void after a reveal of another seed or a late one; revealed after a reveal in time until the window ends, then timed out; timed out once a late answer came before any rightful one; answered when a rightful answer came first |
| ChallengePhases.KnownIff | adl_lite/challenge.py:149-178 | a challenge is known exactly when some event opens it acceptably |
| ChallengePhases.OpensIff | adl_lite/challenge.py:149-178 | an open is acceptable exactly when its deadline is a readable timestamp and its window a positive number or a string that reads as one; a truth value is none |
| ChallengePhases.ReplayedPhase | adl_lite/challenge.py:252-325 | a replay followed by the phase at an instant, or at the latest readable stamp, or at the wall clock, answers with the phase the events call for; nothing exactly when no event opens the challenge |
| ChallengePhases.EarnedCase | adl_lite/challenge.py:209-237 | an answered challenge records the challenger, concept, commitment, deadline, window and target of its open, the seed and instant of its reveal, and the actor, output and instant of the answer that earned it |
| ChallengePhases.MisrevealedCase | adl_lite/challenge.py:180-207 | a void one records why: another seed, or a reveal after the deadline |
| ChallengePhases.IssueIff | adl_lite/challenge.py:126-237 | each of the fourteen issues is raised by an event exactly when, by the events before it, just that is wrong with it; no issue exactly when nothing is |
| ChallengeProofs.VerdictIsFinal | adl_lite/challenge.py:256-272 | once decided at an instant, no continuation whose events about the challenge carry readable stamps at or after it changes the verdict at any later instant |
| ChallengeProofs.VerdictMovesIff | adl_lite/challenge.py:180-272 | one more event changes a decided verdict exactly when it is a matching reveal or rightful answer whose effective instant is not after its deadline |
| ChallengeProofs.UnreadableStampRevives | adl_lite/challenge.py:197-207 | a reveal with an unreadable stamp counts as made at the deadline, so a void challenge comes back as revealed |
| ChallengeProofs.LatestSeen | adl_lite/challenge.py:130-132 | the default instant is the latest readable stamp of any challenge event |
| ChallengeMetrics.CountsAddUp | adl_lite/challenge.py:294-306 | every challenge has exactly one verdict: the five counts add up to the total |
| ChallengeMetrics.CapabilitiesAddUp | adl_lite/challenge.py:308-319 | summed over the capabilities the counts are the overall counts |
| ChallengeMetrics.Rate | adl_lite/challenge.py:294-306 | the rate times answered plus timed out is the answered; it is between 0 and 1, and missing exactly when nothing was answered or timed out |
| ChallengeMetrics.ResponseMetrics | adl_lite/challenge.py:274-319 | overall and per-capability buckets count the eligible challenges by their verdict at the instant |
| ChallengePhases.ConcernsIff | adl_lite/challenge.py:287-292 | a challenge is eligible for an executor exactly when it targets it, or targets nobody and was answered by it; every one is when no executor is named |
| ChallengePhases.ReplayedMetrics | adl_lite/challenge.py:274-325 | over any event sequence every count is the number of the executor's challenges that the events call for in that phase, overall and per capability, and the rate is the share of the answered among the answered and timed out, missing when there are neither |
| Base58.RebaseRoundTrip | adl_lite/did_resolver.py:70-99 | changing the base of a digit string and back gives it back, leading zeros included, for any two bases |
| Base58.RebaseIff | adl_lite/did_resolver.py:70-99 | changing the base keeps the number and the count of leading zeros, and these two leave no choice |
| Base58.BytesNeeded | adl_lite/did_resolver.py:83-83 | `(num.bit_length() + 7) // 8` is the number of base-256 digits, so `to_bytes` neither overflows nor pads |
| DidResolver.DecodeOfEncode | adl_lite/did_resolver.py:70-99 | decoding an encoded byte string gives it back, for every byte string |
| DidResolver.EncodeOfDecode | adl_lite/did_resolver.py:70-99 | encoding a decoded string gives it back, for every string over the alphabet |
| DidResolver.EncodedIff | adl_lite/did_resolver.py:87-99 | the text of a byte string is the one over the alphabet that spells the same number with as many leading ones as there are leading zero bytes |
| DidResolver.ClassIsAlphabet | adl_lite/did_resolver.py:117-117 | the character class of the pattern is the Base58 alphabet |
| DidResolver.AlphabetAscends | adl_lite/did_resolver.py:72-72 | the alphabet ascends by code point, which with its class leaves one order |
| DidResolver.EncodeBase58 | adl_lite/did_resolver.py:87-99 | the division loop and its zero case compute the encoding |
| DidResolver.DecodeBase58 | adl_lite/did_resolver.py:70-84 | the two loops compute the decoding, and fail exactly on a character outside the alphabet |
| DidResolver.CreateDidKey | adl_lite/did_resolver.py:156-161 | the identifier of a key |
| DidResolver.ResolveDidKey | adl_lite/did_resolver.py:107-146 | resolves or fails with the first check that fails, in the order of the code |
| DidResolver.ResolveOfCreate | adl_lite/did_resolver.py:107-161 | making an identifier and resolving it gives the key back, for every 32-byte key |
| DidResolver.ResolvesIff | adl_lite/did_resolver.py:107-146 | an identifier resolves to a key exactly when it is that key's own identifier followed by nothing, or by text that starts outside the alphabet |
| DidResolver.DidShape | adl_lite/did_resolver.py:156-161 | every identifier is `did:key:z` followed by the text of 0xED 0x01 and the key |
| DidResolver.FormatErrors | adl_lite/did_resolver.py:107-120 | which identifiers are refused before anything is decoded: those that do not start with `did:key:`, and those without a non-empty run of the class behind `did:key:z` |
| DidResolver.ResolvedByText | adl_lite/did_resolver.py:120-146 | otherwise the decoded run decides: a wrong prefix, a wrong key length, or the document with its id, method id and the bytes behind the prefix as key |
| DidResolver.DidsAreDistinct | adl_lite/did_resolver.py:156-161 | different keys have different identifiers |
| RateLimits.BoundedIffSpaced | adl_lite/api_auth.py:345-369 | at most max requests in every window (s, s+w], wherever it starts, exactly when each request is at least w later than the one max places before it |
| RateLimits.EveryWindowIsBounded | adl_lite/api_auth.py:352-369 | with a clock that never goes back every run of checks admits at most max_requests in every such window |
| RateLimits.RefusedIffFull | adl_lite/api_auth.py:352-369 | and no more is refused than must be: a visit is turned away exactly when the window that ends with it already holds max_requests admissions; otherwise it is added to them |
| RateLimits.RateLimiter.CleanWindow | adl_lite/api_auth.py:345-350 | keeps exactly the requests of the window that ends now and forgets none that could matter later |
| RateLimits.RateLimiter.Check | adl_lite/api_auth.py:352-369 | admits exactly when the window that ends now holds fewer than max_requests of the client's admissions; other clients are untouched; a limit of zero or less admits all |
| RateLimits.RateLimiter.EveryWindow | adl_lite/api_auth.py:352-369 | so at any moment of any run every window of every client is within the limit |
| RateLimits.FreeFrom | adl_lite/api_auth.py:352-369 | a client at its limit is admitted again exactly from the moment its oldest remembered request leaves the window |
| RateLimits.RateLimiter.GetRetryAfter | adl_lite/api_auth.py:371-387 | 0 exactly when the client has no request in the window; for a client at its limit, within one second of the time left until it is admitted again |
| RateLimits.RetrySufficesIff | adl_lite/api_auth.py:385-387 | waiting as long as told suffices exactly when at most a second is left or the wait is a whole number of seconds |
| RealtimeWatchers.OneAlertPerBlock | adl_lite/realtime.py:156-196 | over any stream there is one smurfing alert for each maximal block of at least five consecutive amounts under 1000 among the flagged events |
| RealtimeWatchers.StartsAreBlocks | adl_lite/realtime.py:165-180 | block starts are the starts of maximal blocks, one block each |
| RealtimeWatchers.RapidOnce | adl_lite/realtime.py:198-207 | rapid movement is reported once, and exactly when there are ten flagged events |
| RealtimeWatchers.ReachingIsLeast | adl_lite/realtime.py:209-215 | the number of flagged events it takes to name n recipients is the least such number |
| RealtimeWatchers.FanOutAlerts | adl_lite/realtime.py:209-224 | over any stream there is one fan-out alert for each flagged event from the one that names the fifth recipient up to, and without, the one that names the sixth |
| RealtimeWatchers.RealtimeWatcher.CheckLaunderingPatterns | adl_lite/realtime.py:156-226 | the loops raise exactly the functional alerts |
| RealtimeWatchers.RealtimeWatcher.Check | adl_lite/realtime.py:121-149 | the alerts of all four rules are raised, in their order, and added to the watcher's |
| RealtimeWatchers.AlertIff | adl_lite/realtime.py:156-292 | one check raises exactly these alerts, with what they tell: smurfing when the last five flagged amounts are under 1000 and the one before is not, rapid movement at ten flagged events, fan-out at five recipients, the status change, the milestone, the large amount |
| RealtimeWatchers.AlertsInRuleOrder | adl_lite/realtime.py:121-149 | at most one of each, in the order of the rules |
| RealtimeWatchers.StatusReported | adl_lite/realtime.py:228-251 | over any stream there is one alert for each VALIDATE and each DEPRECATE |
| RealtimeWatchers.SizeReportedOnce | adl_lite/realtime.py:254-275 | and one when the chain reaches a hundred, a thousand and ten thousand events |
| RealtimeWatchers.LargeReported | adl_lite/realtime.py:278-292 | and one for each amount of a million or more |
| RealtimeWatchers.Watch | adl_lite/realtime.py:86-149 | a watcher that checks after every append ends with the alerts of the stream, one smurfing alert for each block |
| Calibrations.MARGINCalibrator.GetAccuracy | adl_lite/calibration.py:89-101 | the context's own score, else the global one, else one half; the file is loaded exactly when the calibrator has neither; always within [0, 1] |
| Calibrations.MARGINCalibrator.UpdateAccuracy | adl_lite/calibration.py:103-117 | nothing is new but the score of this actor in this context, which is the observed one cut to [0, 1]: every other actor reads as before in every context, this one in every other context that has its own score; and the file loads back as what is held |
| Calibrations.MARGINCalibrator.UpdateAccuracyEwma | adl_lite/calibration.py:119-136 | the same with the smoothed score, compared with what is held once the actor was read |
| Calibrations.WritesOnly | adl_lite/calibration.py:103-117 | the frame of an update on what reads return, for every book, actor, context and value |
| Calibrations.AnswersIff | adl_lite/calibration.py:89-101 | asked for an actor in a context the book answers with the context's own score, else with the global one, else with a half, and with nothing else |
| Calibrations.LoadingCuts | adl_lite/calibration.py:56-74 | loading keeps who has a score where, and cuts each score to [0, 1]; without a file nobody has one |
| Calibrations.UnreadFileIsLost | adl_lite/calibration.py:103-117 | `update_accuracy` of a calibrator that has not read its file overwrites it: everybody else in it is back at one half |
| Calibrations.EwmaDistance | adl_lite/calibration.py:119-136 | after n updates with observation x and alpha in [0, 1] the distance to x is exactly the n-th power of 1 - alpha times what it was, in every context, and the score stays in [0, 1] without the clamp acting |
| Confidences.PeakIsMaximum | adl_lite/calibration.py:238-242 | the per-actor maximum bounds the actor's confidences and is attained, or is zero |
| Confidences.VotersInOrder | adl_lite/calibration.py:285-292 | actors are listed by their first votes |
| Confidences.MeanIsBetween | adl_lite/calibration.py:247-256 | a mean with non-negative weights, not all zero, lies between the least and the greatest value |
| Confidences.CalibratedConfidence | adl_lite/calibration.py:221-256 | zero without accuracy, else the per-actor maxima weighted by accuracy: below the cap of one, times the sum of the weights it is the weighted sum; between the least and the greatest of them when confidences are in [0, 1]; each weight is the score in what the calibrator holds when asked, which is its file from the first unknown actor on -- so the file's scores for a new calibrator |
| Confidences.FirstPeakIsPeak | adl_lite/calibration.py:285-292 | the vote kept for an actor carries that actor's greatest confidence |
| Confidences.FirstPeakIsFirst | adl_lite/calibration.py:285-292 | and is the first of that actor's votes to do so |
| Confidences.AlphaOneIsLastDeciding | adl_lite/calibration.py:264-306 | with a factor of one and votes in time order, ties included, the result is the confidence of the last vote that raised its actor's maximum with no later-joined actor's peak at the same instant |
| Confidences.AlphaOneIsLastVoteIff | adl_lite/calibration.py:273-274 | so it equals the last-VALIDATE strategy exactly when the last vote is such a one, or reported the same confidence as the last such one before it |
| Confidences.FoldIsBetween | adl_lite/calibration.py:301-304 | smoothing with a factor in [0, 1] stays between the least and the greatest value |
| Confidences.FoldIsWeighted | adl_lite/calibration.py:301-304 | the closed form: over n peaks in time order smoothing gives (1-alpha)^(n-1) times the first plus the sum of alpha(1-alpha)^(n-1-i) times the i-th, and these shares add up to one |
| Confidences.EwmaConfidence | adl_lite/calibration.py:264-306 | zero without votes, else the sum of each actor's first peak in time order, weighted by the shares of the closed form, cut to [0, 1]; between the least and the greatest peak when confidences and factor are in [0, 1] |

## Left out

- CrdtLattice.StatesJoinIff: when versions of one event agree on type and payload; otherwise what is counted depends on which version survives.
- PullEffects.PullLeavesSenderIff: for append-built, archive-free chains that verify; `Relinking.PullLeavesAnySenderIff` has the condition for any verifying sender.
- TailHash.TailHashFixesHistory: for archive-free chains; an archive legitimately replaces the middle of a chain under one tail hash.
- Archiving.TrimmedVerifiesIff: for the first archive of a chain and keep_last_n >= 0; a second archive overwrites the file of the first. What a negative keep_last_n leaves is stated by `ColdStorages.ColdStorage.Archive` alone.
- EventsTables.RetrievedVerifiesIff: for the first archive, followed at once by the store and the retrieval; with equal timestamps the condition is that of `EventsTables.RetrievedInOrderIff`. Tenants and the payload's JSON encoding are not modelled.
- SideEffects.SideEffectQueue.Drain: for drains that end; an executor that keeps the queue from emptying forever never returns in the source either. An executor that raises is not modelled.
- TransparencyAnchors.BatchVerdictIsSound: a shorter or longer proof than the tree is high is outside the statement, because inner nodes and leaves are hashed alike; the text encoding is taken to be one-to-one.
- ChallengeRules.Window: an infinite or not-a-number window is not modelled; `float` on strings is a parameter.
- BodyRules.BodyOkIff: a challenge phase that Python cannot hash, a list or an object, raises in the source; here the event fails axiom 15.
- ChallengeManagers.ChallengeManager.ApplyChain: takes events whose timestamps may be unreadable, and so a sequence of them rather than an `EventChain`, whose timestamps are instants in this model; the rounding of a window to microseconds is not modelled.
- RealtimeWatchers.RealtimeWatcher.Check: the flag, the amount and the recipient of an event are given as read; a non-numeric amount, which raises, the average in a smurfing alert's detail, and the registered callbacks are not modelled.
- Confidences.EwmaConfidence: `aggregated_confidence`, the band and the context variants of calibrated confidence are not modelled.
- MergeEffects.MergeInputs: for chains that share no event object; `ReplicaMerge.MergeTwo` says which objects are taken when they do.
- Calibrations.MARGINCalibrator.GetAccuracy: the YAML file is a stored book of scores.
- EventChains.EventChain.Confidence: a confidence given as a numeric string counts as unreadable, where Python's `float` reads it; axioms 8 and 12 hold by typing.
- ColdStorages.ColdStorage.VerifyIntegrity: a pointer or path that is not a string counts as empty; file encodings (JSON lines, zstd, msgpack) are a stored list of events, and an unreadable file is not modelled.
- WarmIndexes.WarmIndex.GetRelated: relation confidences on parallel edges differ between the paths (the graph keeps the last write, the table the first), so only nodes and predicates are claimed; documents, tenants, the Neo4j backend and the vector index are not modelled.
- DidResolver.ResolveDidKey: of the document only id, method id and key are modelled; did:web, did:ethr and the cryptography are not.
- Signatures and keys: `verify_integrity` with a registry, LD-proof checks, git calls and the key registry file.
- The flat transparency anchor and the text of ANCHOR.md; hexadecimal encoding in the Merkle tree (bytes are used directly).
- Locks and threads; REST, CLI, MCP and dashboard layers; JWT handling and the ASGI middleware around the rate limiter.
- Parser, validator, OWL, RDF, JSON-LD and PROV export and import, the agents package, consensus, trust, quota, ontology and tenant guards.
- `EdgeNode`, which composes a chain, a queue and a watcher; `integrity_violations` and the well-formedness report, which repeat the axioms for display.

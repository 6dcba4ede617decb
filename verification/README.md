# x0x-compute in Dafny

A model of the stateful parts of x0x-compute, with proofs about whole runs:

- **The slot allocator** (`src/runtime.rs`). Clients reserve slots of a model; the
  reserved count is recomputed by a saturating fold over a `BTreeMap`; ids come from a
  saturating `u64` counter printed as `resv-{:06}`; everything sits behind a mutex whose
  poisoning is ignored. `Runtime.dfy` says what each operation computes,
  `RuntimeAdapter.dfy` is the object that updates its state in place, `RuntimeLaws.dfy`
  has the invariant and the exact meaning of the calls in unbounded integers,
  `Histories.dfy`, `Runs.dfy` and `RunBounds.dfy` have the laws of whole runs and where
  they stop holding, and `Concurrency.dfy` interleaves any number of clients step by
  step, with clients dying at any point; `Deliveries.dfy` says what clients are
  answered, and `Schedules.dfy` which runs come about.
- **The trusted peer registry** (`src/mesh.rs`): `Mesh.dfy` has the admission checks, the
  registry object and the receive loop; `MeshLaws.dfy` tells the registry from the
  history of messages alone.
- **The identifier codec** (`src/x0x_identity.rs`): `HexCodec.dfy`.
- **The word counts** in `chat_completion`: `Words.dfy` and the end of `RuntimeLaws.dfy`.

`OrderedMap.dfy` stands for `BTreeMap<String, V>`: the strictly sorted sequence its
iterators walk. `Lexicographic.dfy` is the order of its keys, by code point, and
`Utf8.dfy` proves that this is the order of their bytes, which is how Rust compares them.
`Decimal.dfy` is `{:06}`.

Inputs the code takes from outside are parameters: clock readings (`now`), the contact
store at each message, x0x's trust evaluator (any function of contacts, agent and
machine), and the announcement that decoding a payload yields, if any.

## Whole runs

- With no bound at all (saturated counter, overwritten entries, dead clients): capacity
  is never exceeded, and granted slots are live, released or lost to an overwrite.
- Three guarantees that the saturating counter can break, each with the exact runs that
  keep it: grant ids are distinct iff every grant but the last came while the counter was
  more than one step below 2^64 - 1; no id is released twice iff the clamped id is not;
  reserved equals granted minus released iff no create is granted while the counter is
  saturated and the clamped id is live. All three hold in every run that spends at most
  2^64 - 1 numbers, and one number more breaks each of them. A create whose client dies
  between the counter bump and the insert spends a number too.
- The reservation list is in grant order iff, of any two live numbers, the earlier one is
  smaller and, where it prints narrower, at most the later one's leading digits. That is
  so in every run of at most 999,999 spent numbers, and not of one more:
  `resv-1000000` sorts before `resv-999999`.
- Every schedule of clients agrees with running the logged operations one at a time, in
  lock-acquisition order and in real-time order. A returned client's operation is its
  whole call; a dead client's is its whole call, nothing, or, for a create, a spent number.
- Conversely, every run that is possible for its clients is the run of some schedule, and
  at any moment any client can make any call and have it returned.

Where the documentation and the code differ, the model follows the code: the
documentation of `src/x0x_identity.rs` speaks of full lowercase hexadecimal, but parsing
accepts either case, so an announced machine id may be in upper case (an announced agent
id may not, because it is compared with the encoded sender).

## Model

| member | source | states |
|---|---|---|
| MachineInts.Widths | src/runtime.rs:177-185 | the bounds of the saturating types are those of 16, 32 and 64 bits |
| Utf8.EncodeCharExact | src/x0x_identity.rs:57-61 | a character's bytes announce their number, read back as its code point, and have no shorter form |
| Utf8.OrderIsByteOrder | src/runtime.rs:132-141 | comparing strings by code point is comparing their UTF-8 bytes, so map keys sort as the model says |
| Decimal.ValueOfPadded | src/runtime.rs:241 | reading a zero-padded number back gives the number, for every number, so ids determine their numbers |
| Decimal.PaddedExact | src/runtime.rs:241 | the padded form is the one text that spells the number in at least six digits without a leading zero beyond the sixth |
| Decimal.PaddedOrder | src/runtime.rs:241 | how any two padded numbers compare as strings: numerically at equal widths, otherwise by the leading digits of the wider one |
| Decimal.SortsBeforeExact | src/runtime.rs:241 | when the smaller of two padded numbers sorts first, as a condition on the numbers |
| Decimal.PaddedOrderBound | src/runtime.rs:241 | string order is numeric order on 0..n iff n <= 999,999 |
| HexCodec.ParseOfEncode | src/x0x_identity.rs:31-55 | a 32-byte id of an agent or a machine prints as 64 lowercase digits, and parsing them gives it back |
| HexCodec.EncodeInjective | src/x0x_identity.rs:37-39 | different ids have different hex keys |
| HexCodec.ParseExact | src/x0x_identity.rs:57-69 | parsing succeeds exactly on 64 hex digits of either case, and re-encoding lowercases; any other string is refused for an odd number of bytes, else for its first bad character, with its index, else for the number of bytes |
| HexCodec.ParsersNameTheField | src/x0x_identity.rs:47-55 | both public parsers accept the same strings with the same result, and each names its own field in an error |
| HexCodec.SameIdIffSameUpToCase | src/x0x_identity.rs:53-69 | two parseable machine ids denote the same machine, hence the same trust query, iff they agree up to case |
| HexCodec.EncodeOrder | src/x0x_identity.rs:37-39 | the order of hex keys is the order of the raw bytes, both ways |
| Words.WhitespaceExact | src/runtime.rs:359-360 | a character is whitespace iff it is one of the 25 of the White_Space property |
| Words.SplitExact | src/runtime.rs:359-360 | the three rules that determine splitting: nothing has no words, a text without whitespace is one word, whitespace separates |
| Words.TrimExact | src/runtime.rs:315-316 | trimming drops whitespace at both ends, all of it and nothing else |
| Words.WordCountIsStarts | src/runtime.rs:359-360 | the split count is the number of positions where a word starts |
| Words.WordCountOfJoin | src/runtime.rs:319-326 | the word count of texts joined with a space is the sum of their counts |
| Words.SplitTrim | src/runtime.rs:315-316 | trimming changes no word |
| Words.TrimEmpty | src/runtime.rs:214 | a trimmed text is empty iff the text is all whitespace |
| RuntimeLaws.FoldIsClampedSum | src/runtime.rs:177-185 | the u16 saturating fold is the exact sum clamped to 65535, from any start and for any list |
| RuntimeLaws.FoldIgnoresOrder | src/runtime.rs:177-185 | the fold does not depend on the order in which the map is walked |
| RuntimeLaws.AvailableExact | src/runtime.rs:160-162 | in any state the saturating fold and subtraction together give capacity minus held slots, cut off at zero |
| RuntimeLaws.FoldExact | src/runtime.rs:177-185 | in every invariant state the fold is the exact sum and the subtraction from capacity does not clip |
| RuntimeLaws.ReservationIdExact | src/runtime.rs:241 | a text is the n-th reservation id iff it is `resv-` and the number in at least six digits |
| RuntimeLaws.CreateExact | src/runtime.rs:213-251 | in unbounded integers: create grants iff the consumer is not blank, at least one slot is asked, the model is served and held + requested fits; the full record granted, its id spelled out; the error and its reason otherwise; every other entry unchanged |
| RuntimeLaws.ReleaseExact | src/runtime.rs:258-267 | release succeeds iff the id is live, removes that entry alone and takes back exactly its slots |
| RuntimeLaws.ListExact | src/runtime.rs:253-256 | the list holds every live reservation, once, in string order of the ids, and nothing else |
| RuntimeLaws.InsertKeepsInv | src/runtime.rs:247-249 | inserting a reservation that fits keeps capacity for every model, also when it overwrites another entry |
| RuntimeLaws.InventoryAgrees | src/runtime.rs:159-175 | every inventory row in full, with reserved + available = total unclipped, and the rows together hold exactly the slots of the reservation list |
| RuntimeLaws.BuildModelsKeys | src/runtime.rs:143-157 | the model table is sorted, has exactly the configured ids as keys, and keeps each model under its own id |
| RuntimeLaws.LastConfigWins | src/runtime.rs:143-157 | of several configurations with one id, the last is in force |
| RuntimeLaws.AdvertisedEqualsServed | src/runtime.rs:269-283 | the listed ids are the advertised ones, strictly sorted and without duplicates; lookup succeeds iff the id is advertised; the last duplicate is in force |
| RuntimeLaws.CardsAreServed | src/runtime.rs:269-283 | the model cards are the served ids, each once, in string order |
| RuntimeLaws.PromptIsLastUser | src/runtime.rs:301-313 | the prompt is the last user message, or the last message when no user spoke |
| RuntimeLaws.PromptTokens | src/runtime.rs:319-326 | prompt tokens are max(1, sum of the word counts of the messages' contents), clamped to u32 |
| RuntimeLaws.CompletionExact | src/runtime.rs:315-317 | the completion is prefix, bracketed id and prompt, set off by single spaces, for blank and padded parts too |
| RuntimeLaws.CompletionWords | src/runtime.rs:315-317 | the completion's words are those of prefix, bracketed id and prompt in order, with no whitespace at either end |
| RuntimeLaws.CompletionTokens | src/runtime.rs:327 | completion tokens are the three counts added and clamped; the bracketed id makes the floor of one redundant |
| RuntimeLaws.TotalTokens | src/runtime.rs:328 | total tokens are the clamped sum of the unclamped counts of prompt and completion |
| RuntimeLaws.ChatExact | src/runtime.rs:285-352 | which chat requests fail, how and for what reason; otherwise id, model, exact text and usage of the answer from the messages themselves; and that only the completion counter moves |
| RuntimeAdapter.SkeletonRuntimeAdapter.constructor | src/runtime.rs:143-157 | a new adapter serves the last-wins model table from the empty state and satisfies the invariant |
| RuntimeAdapter.SkeletonRuntimeAdapter.CreateReservation | src/runtime.rs:213-251 | the in-place create changes the state as specified, answers as `CreateExact` says, and keeps the invariant |
| RuntimeAdapter.SkeletonRuntimeAdapter.ReleaseReservation | src/runtime.rs:258-267 | the in-place release, likewise |
| RuntimeAdapter.SkeletonRuntimeAdapter.ChatCompletion | src/runtime.rs:285-352 | the in-place completion moves only its own counter and answers as `ChatExact` says |
| RuntimeAdapter.SkeletonRuntimeAdapter.LocalModels | src/runtime.rs:202-211 | a live adapter's inventory has the exact row of each model, and the rows account for every live slot |
| RuntimeAdapter.SkeletonRuntimeAdapter.OpenAiModels | src/runtime.rs:269-283 | a live adapter's cards are its served ids, sorted, each once |
| RuntimeAdapter.SkeletonRuntimeAdapter.Reservations | src/runtime.rs:253-256 | a live adapter lists its live reservations, sorted, each once |
| Histories.GrantId | src/runtime.rs:239-241 | the id of the k-th spent number is `resv-` and min(k, 2^64 - 1) |
| Histories.LiveIsLastGrant | src/runtime.rs:247-249 | a live entry is the most recent grant of its id |
| Histories.StaysDead | src/runtime.rs:239-249 | an issued number below 2^64 - 1 that is not live never becomes live again |
| Histories.Ledger | src/runtime.rs:177-267 | in every legal history, at every point: live + released + overwritten = granted, per model |
| Histories.OverwritesIff | src/runtime.rs:239-249 | a grant replaces a live entry iff the counter is saturated and the clamped id is live |
| Histories.GrantMovesOwnModel | src/runtime.rs:239-249 | any other grant adds exactly its slots to its own model and nothing to the rest |
| Histories.LedgerIff | src/runtime.rs:177-267 | a history's ledger balances iff no create is granted while the counter is saturated and the clamped id is live |
| Histories.DistinctIff | src/runtime.rs:239-241 | all grant ids of a history are distinct iff every grant but the last came before the counter's last step |
| Histories.ReleasedOnceIff | src/runtime.rs:258-267 | no id is released twice iff the clamped id is not |
| Histories.GrantOrderIff | src/runtime.rs:240-256 | at every point of a history the id-sorted list is the list in grant order iff its numbers, in grant order, also sort as strings |
| Histories.Conservation | src/runtime.rs:177-267 | a legal history within the counter has reserved = granted - released for every model |
| Histories.DistinctGrants | src/runtime.rs:239-241 | in a legal history within the counter no two grants have one id |
| Histories.ReleasedOnce | src/runtime.rs:258-267 | in a legal history within the counter no id is released twice |
| Histories.ReversesOneGrant | src/runtime.rs:258-267 | each release of an unclamped id, and within the counter of any id, reverses exactly one grant |
| Histories.ListIsGrantOrder | src/runtime.rs:253-256 | in a legal history the id-sorted list is the list in grant order at every point before the millionth number |
| Runs.PerformAnswers | src/runtime.rs:202-352 | every call, from every invariant state, is answered as promised: create, release, the three lists and chat, with every error |
| Runs.RunIsLegal | src/runtime.rs:213-267 | every run of calls, dead clients included, is a legal history: each step changed the map and the counter only as its effect says, and every state satisfies the invariant |
| Runs.EveryRunKeepsInv | src/runtime.rs:213-267 | after every run, unbounded and with dead clients, capacity holds for every model, each key is its entry's id, live numbers were issued and every live entry names a served model |
| Runs.WithinTheCounter | src/runtime.rs:239-267 | up to 2^64 - 1 numbers: reserved = granted - released per model, grant ids are pairwise distinct, no id is released twice |
| Runs.ReleaseReversesOneGrant | src/runtime.rs:258-267 | a successful release (of an unclamped id in any run, of any id within the counter) has exactly one grant, earlier, with its id, and removes that grant's record and slots only |
| Runs.LedgerWithLosses | src/runtime.rs:177-267 | with no bound: live + released + overwritten = granted, per model |
| Runs.ListedInGrantOrder | src/runtime.rs:253-256 | up to 999,999 numbers the id-sorted list equals the list kept by appending grants and deleting releases |
| Runs.DistinctIdsIff | src/runtime.rs:239-241 | for every run: all grant ids are distinct iff every grant but the last was made while the counter was below 2^64 - 2 |
| Runs.NoSecondReleaseIff | src/runtime.rs:239-267 | for every run: no id is released twice iff the clamped id is released at most once |
| Runs.LedgerBalancesIff | src/runtime.rs:177-267 | for every run: reserved = granted - released for all models iff no create was granted while the counter was saturated and the clamped id live |
| Runs.GrantOrderIff | src/runtime.rs:240-256 | for every run: the final list is in grant order iff its numbers, in grant order, also sort as strings |
| Runs.CreateMovesOwnModel | src/runtime.rs:239-249 | a granted create that overwrites nothing adds exactly its slots to its own model and nothing to the rest |
| Runs.CompletionIdsIff | src/runtime.rs:330-334 | two answered completions of a run have different ids iff fewer than 2^64 - 2 completions came before the first |
| RunBounds.DistinctIdsBound | src/runtime.rs:239-241 | runs spending at most n numbers all have distinct ids iff n <= 2^64 - 1 |
| RunBounds.StaleIdBound | src/runtime.rs:239-267 | released ids stay released in all such runs iff n <= 2^64 - 1 |
| RunBounds.LedgerBound | src/runtime.rs:239-267 | the ledger balances in all such runs iff n <= 2^64 - 1 |
| RunBounds.GrantOrderBound | src/runtime.rs:240-256 | the list is in grant order in all such runs iff n <= 999,999 |
| Concurrency.RejectedEverywhere | src/runtime.rs:214-225 | a call refused before locking gets the same answer in every state and changes none, so checking without the lock is sound |
| Concurrency.MalformedNeedsNoLock | src/runtime.rs:214-225 | the requests refused before locking are exactly those with a fault in the request itself |
| Concurrency.Linearizable | src/runtime.rs:193-267 | after any schedule, running the logged operations one at a time gives every returned client its answer and the free shared state; each client is logged once, a returned one with its whole call, a dead one with its whole call, nothing, or (a create only) a spent number; the log is in lock order; exactly the lock's holder is in its critical section |
| Concurrency.RealTimeOrder | src/runtime.rs:193-267 | a call that returned before another was made precedes it in the sequential order |
| Concurrency.PanicTolerance | src/runtime.rs:193-198 | whoever dies wherever, the state left behind, even mid-section, satisfies the full invariant |
| Deliveries.DeliveredAnswersExact | src/runtime.rs:202-352 | in every schedule, each returned client has the answer promised for its call in the state its place in the sequential run finds |
| Deliveries.DeliveredIdsDistinct | src/runtime.rs:239-250 | no two clients are handed the same id, however their calls interleave and die, while at most 2^64 - 1 numbers are spent |
| Deliveries.DeliveredReleasesDistinct | src/runtime.rs:258-267 | no two clients both succeed in releasing one id, under the same bound |
| Deliveries.DeliveredCompletionsDistinct | src/runtime.rs:330-334 | no two clients are answered completions with one id, while at most 2^64 - 1 completions are made |
| Deliveries.SharedLedgerBalances | src/runtime.rs:177-267 | whenever the lock is free, under the same bound, the shared state holds granted - released slots of every model |
| Deliveries.DeliveredInventoryAgrees | src/runtime.rs:202-211 | every inventory any client is answered, in any schedule, has reserved + available = total in each row, and the rows hold exactly the slots of the reservations at the answer's place in the sequential run |
| Deliveries.DeliveredListInGrantOrder | src/runtime.rs:253-256 | every reservation list any client is answered is, at its place in the sequential run, in grant order iff the live numbers sort as strings, and so before the millionth number |
| Schedules.NobodyIsBlocked | src/runtime.rs:193-198 | after any schedule, deaths and poison included, every waiting call can be brought to return |
| Schedules.CallEnters | src/runtime.rs:213-225 | whenever a new client makes a call, a malformed one is refused at once with its error, even while the lock is held, any other one waits, and nothing else changes |
| Schedules.EveryCallCanReturn | src/runtime.rs:193-352 | after any schedule, any call by a new client can be brought to return to it |
| Schedules.DeathAnywhere | src/runtime.rs:193-198 | a client can die waiting or anywhere in its section; the state stays as it left it, its lock is freed and poisoned |
| Schedules.PoisonedIff | src/runtime.rs:193-198 | the lock is poisoned iff some client died in its critical section |
| Schedules.SchedulesAreRuns | src/runtime.rs:193-267 | the logs of schedules are exactly those in which each client's call ends as it can in the state it finds: whole, without effect, or, where a create would be granted, with a spent number |
| Schedules.EveryCallSequenceIsScheduled | src/runtime.rs:193-352 | every sequence of calls has a schedule that returns each call to its client with its outcome in that order, and leaves that state |
| Mesh.TrustedPeerRegistry.ApplyMessage | src/mesh.rs:70-144 | the in-place update changes the registry and answers as specified |
| Mesh.SubscriptionLoop | src/mesh.rs:170-179 | the receive loop leaves the registry of the whole history and answers each message as that history says |
| MeshLaws.FirstFailedCheckDecides | src/mesh.rs:77-120 | admitted iff all nine checks pass; otherwise the first failing one names the refusal |
| MeshLaws.TrustDecides | src/mesh.rs:108-116 | past the first eight checks a message is refused for trust iff the decision is a mismatch, a block or unknown, or a flagged acceptance in a mesh that asks for more |
| MeshLaws.RegistryRefinesLog | src/mesh.rs:77-144 | after any history the registry is sorted and holds for each key exactly the summary of that sender's accepted messages: last content and time, first time |
| MeshLaws.PresentIffAccepted | src/mesh.rs:118-142 | a peer is stored iff one of its messages was accepted |
| MeshLaws.EveryRecordTrusted | src/mesh.rs:86-143 | every stored record has its own 64-digit lowercase key, is not the local agent, has the supported version, the mesh name, a parseable machine id, and a decision Accept, or AcceptWithFlag with both mesh flags off; with clocks that never decrease, first seen <= last seen |
| MeshLaws.SnapshotExact | src/mesh.rs:53-55 | the snapshot lists the summary of each sender with an accepted message, each in one place, and nothing else |
| MeshLaws.SnapshotInIdentityOrder | src/mesh.rs:53-55 | the snapshot is strictly increasing in the raw 32-byte agent ids |
| MeshLaws.DispositionFromLog | src/mesh.rs:124-142 | a sender's first accepted message is answered AcceptedNewPeer, each later one UpdatedPeer |
| MeshLaws.LenCountsNewPeers | src/mesh.rs:53-67 | the length, and the number of peers listed, is the number of AcceptedNewPeer answers; the registry is empty iff every message was refused |
| MeshLaws.OnlySenderOrderMatters | src/mesh.rs:77-144 | histories that agree on each sender's accepted messages build the same registry, however interleaved |
| MeshLaws.RefusedDoNotMatter | src/mesh.rs:77-120 | deleting all refused messages leaves the registry unchanged |
| MeshLaws.DifferentSendersCommute | src/mesh.rs:77-144 | swapping adjacent messages of different senders leaves the registry unchanged |

## Left out

- HTTP routing, status mapping, the CLI, JSON and TOML, file paths and hardware probing: plumbing around the modelled core.
- x0x itself (keys, signatures, pub/sub, the contact store, the trust evaluator) is not part of this model; it appears as message fields and an arbitrary function.
- The mutex and the registry's `RwLock` as objects: the classes' methods are one call at a time, and interleaving is modelled on values in `Concurrency.dfy`; readers of the registry are not interleaved with its writer.
- Schedules.NobodyIsBlocked: shows that a continuation exists, not that a scheduler picks it; fairness of the mutex is not modelled.
- Concurrency.Section: the list, inventory and release calls, and what a completion does under the lock, are one step each; only create is split further.
- How errors are rendered as text; the reasons they carry are modelled.
- The `hex` crate (version 0.4) is not part of this model; `HexCodec.Decode` follows its documented errors, an odd length before the first invalid character and its index.
- Request fields the code ignores and response fields that are constants.
- The balanced tree inside `BTreeMap`; only the order and content it presents.

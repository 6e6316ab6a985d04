# Verified model of the StellarSwipe contracts and release gates

A Dafny 4.11 project that models the logic of the StellarSwipe repository that is hardest to get right
and proves what it is meant to guarantee, for all inputs and all runs.

- **Release gates.** The deployment manifest check with its depth-first cycle search (`DependencyCycle`,
  `Manifest`, over the values in `Json`) against the documented schema (`ManifestSchema`) and its StrKey checksum (`Crc16`, `StrKey`); the WebAssembly
  reader (`Leb128`, `WasmExports`) against an independent description of the binary format
  (`WasmFormat`); the event schema check (`EventSchema`).
- **Replay protection.** The compacting nonce window against the unbounded set of accepted nonces
  (`NonceWindow`), and the length-prefixed bytes that are hashed (`ReplayPreimage`).
- **Liquidity pool.** Integer square root (`IntegerSqrt`), time-locked deposits (`DepositLockup`), the
  pool operations (`LiquidityPool`) and the laws of whole runs (`PoolRuns`, `PoolHealth`,
  `LockupRuns`, `MintedShares`, `PoolCalls`).
- **Signal registry.** Direct and checkpointed reputation decay (`Reputation`, `ReputationRuns`,
  `TouchSafety`), the revision and category store (`SignalCatalog`), moderation cases and appeals (`ModerationAppeals`),
  the contract that holds both (`SignalRegistry`), and what it stores told from its calls
  (`RegistryCalls`).
- **Money arithmetic.** Capped rebates (`Rebates`), the three vesting curves (`Vesting`) and the stake
  vault (`StakeVault`, `VaultCalls`).

`Options`, `MachineInts`, `ByteStrings` and `MapSum` hold what the others share. `dafny verify dfyconfig.toml` checks
everything.

Code that updates state is a class or a method with loops, and each method is proved equal to a
function of the old state; the laws are lemmas about those functions. Where a law compares the code with
what it is meant to do, the meaning is written out on its own: the schema off the JSON, the binary format
byte by byte, stored state from the arguments of the accepted calls. Storage is a map, ledger time a
number that never decreases from call to call, `require_auth` a set of addresses that signed, and a
hash a function about which nothing is known. Integers are unbounded; where the source saturates,
truncates, checks or aborts, the model says so. An abort is an error that leaves the state as it was.

## Where the code and its comments disagree

The model follows the code. Each entry names the input that shows it and the exact condition.

- `distribute_rebates` says scaled payouts sum to the cap; they round down. `Rebates.PayoutsCanMissCap`,
  `Rebates.CapIsExhaustedIff`.
- `withdraw` of the stake vault says withdrawals always reduce concentration; they raise the share of
  every other provider with stake. `StakeVault.WithdrawalCanRaiseConcentration`,
  `StakeVault.WithdrawalMovesShares`.
- `initialize` of the stake vault may be called again and resets the total but not the stakes.
  `StakeVault.SecondInitializeLosesStake`, `StakeVault.InitializeKeepsTotalIff`.
- `set_lockup_duration` says the duration applies to new deposits; the code applies the current one to
  all. `LockupRuns.LongerLockupReachesBack`, `LockupRuns.AgreesIffAllCurrent`.
- The event schema check says topic literals are Soroban symbols; a literal that starts with a brace is
  taken for a field, and one that ends in a newline passes the pattern.
  `EventSchema.BracedDocumentIsAccepted`, `EventSchema.NewlineLiteralIsAccepted`,
  `EventSchema.DocumentedIff`.
- The decay checkpoint says a new update invalidates it; one in the same second does not.
  `ReputationRuns.StoredCheckpointCanBeStale`, `ReputationRuns.UpdateGoesStaleIff`.
- The header of replay_protection.rs lists the hashed bytes without the nonce domain byte.
  `ReplayPreimage.HeaderOmitsDomain`.

Three laws that hold only within limits of the integers have their limits proved exact: field lengths
below 2^32 (`ReplayPreimage.LimitIsExact`, `ReplayPreimage.SubmissionLimitIsExact`), revisions below the
largest u32 (`SignalCatalog.PagesConcatenate`), and the schedules under which a refresh never costs
reputation (`TouchSafety.TouchSafeUntil`, with the input `ReputationRuns.TouchCanHurtWhenSaturated`).
And three laws hold only for some states or calls, each with its input and its condition: idle scores
that only fall (`ReputationRuns.NegativeScoreRises`, `ReputationRuns.IdleNeverRisesIff`), value per pool
share (`PoolHealth.NegativeDepositTakesForNothing`, `PoolHealth.StepKeepsHealthIff`), and pool positions
that add up (`LockupRuns.StrangerCanOverdraw`, `LockupRuns.ReenabledLockupCanOverdraw`,
`PoolRuns.PositionsAddUp`, `LockupRuns.GuardAllowsOverdraftIff`).

## Model

| member | source | states |
|---|---|---|
| `DependencyCycle.FindDependencyCycle` | stellar-swipe/scripts/validate_deployment_manifest.py:222-254 | no cycle is returned if and only if the graph of known dependencies is acyclic; a returned path follows edges and ends where it starts; without a cycle a deployment order exists |
| `DependencyCycle.CycleFinder.constructor` | stellar-swipe/scripts/validate_deployment_manifest.py:225-227 | all contracts are white, the path is empty and the search invariant holds |
| `DependencyCycle.CycleFinder.Visit` | stellar-swipe/scripts/validate_deployment_manifest.py:229-247 | keeps the search invariant (gray contracts are the path, a walk without repetition; black ones finished after all they depend on), finishes the node and restores the path, or returns a genuine cycle; terminates because white contracts decrease |
| `DependencyCycle.CycleFinder.Follow` | stellar-swipe/scripts/validate_deployment_manifest.py:235-244 | one dependency edge: a back edge yields a cycle, otherwise the dependency ends up finished and the path is as before |
| `DependencyCycle.CycleFinder.PathIndex` | stellar-swipe/scripts/validate_deployment_manifest.py:239 | finds a contract on the path |
| `DependencyCycle.DeploymentOrderIsAcyclic` | stellar-swipe/scripts/validate_deployment_manifest.py:222-254 | an order in which everything follows its dependencies rules out every cycle |
| `Manifest.TopLevelErrors` | stellar-swipe/scripts/validate_deployment_manifest.py:134-147 | exactly the faults of network, admin StrKey and contracts, none when all three are acceptable |
| `Manifest.OneDependencyErrors` | stellar-swipe/scripts/validate_deployment_manifest.py:176-191 | exactly the faults of one dependency: on itself, unknown, not an object, without a positive minimum version |
| `Manifest.DependencyErrors` | stellar-swipe/scripts/validate_deployment_manifest.py:175-191 | exactly the faults of all dependencies of an entry, none when every one is another contract of the manifest with a positive minimum version |
| `Manifest.EntryErrors` | stellar-swipe/scripts/validate_deployment_manifest.py:153-191 | exactly the faults of one entry, with the early exits, none for an acceptable entry |
| `Manifest.ContractErrors` | stellar-swipe/scripts/validate_deployment_manifest.py:150-192 | exactly the faults of all entries |
| `Manifest.OneVersionErrors` | stellar-swipe/scripts/validate_deployment_manifest.py:207-218 | a version error with both numbers exactly when both are numbers and the declared one is lower |
| `Manifest.VersionErrorsOf` | stellar-swipe/scripts/validate_deployment_manifest.py:201-218 | exactly the version faults of every dependency the entry lists in the JSON |
| `Manifest.BooleansAreNumbers` | stellar-swipe/scripts/validate_deployment_manifest.py:212-214 | what the comparison accepts for booleans, which Python counts as integers |
| `Manifest.VersionErrors` | stellar-swipe/scripts/validate_deployment_manifest.py:195-219 | exactly the version faults of all contracts |
| `Manifest.DependsOnIff` | stellar-swipe/scripts/validate_deployment_manifest.py:202-206 | the dependencies looked at are all those listed under depends_on |
| `Manifest.CycleIffClosedWalk` | stellar-swipe/scripts/validate_deployment_manifest.py:222-254 | a cycle of the graph is a closed walk of depends_on entries among the contracts |
| `Manifest.ValidIffSchema` | stellar-swipe/scripts/validate_deployment_manifest.py:20-59 | what the checks accept is exactly what the file documents, read off the JSON |
| `Manifest.OrderIsReady` | stellar-swipe/scripts/validate_deployment_manifest.py:37-42 | in a valid manifest a deployment order has everything an entry lists in place first, at the version asked for |
| `Manifest.ValidateManifest` | stellar-swipe/scripts/validate_deployment_manifest.py:257-276 | no error if and only if the manifest follows the documented schema, and then some order deploys every contract once, each dependency listed in the JSON before it at a sufficient version; a closed walk of dependencies ends in an error that names one; all other errors are exactly the faults |
| `Manifest.MutualContractsRefused` | stellar-swipe/scripts/validate_deployment_manifest.py:213-276 | two contracts that depend on each other at versions they do not have are refused for the cycle and for both versions |
| `Manifest.SmallManifestAccepted` | stellar-swipe/scripts/validate_deployment_manifest.py:257-276 | a concrete manifest is accepted for every admin key |
| `Crc16.AbsorbByte` | stellar-swipe/scripts/validate_deployment_manifest.py:89-94 | the inner loop is one byte step of the register |
| `Crc16.Crc16Xmodem` | stellar-swipe/scripts/validate_deployment_manifest.py:85-95 | the nested loops compute the checksum |
| `Crc16.ShiftInjective` | stellar-swipe/scripts/validate_deployment_manifest.py:91-94 | the step of one bit loses nothing: equal results come from equal registers |
| `Crc16.CrcIsSerial` | stellar-swipe/scripts/validate_deployment_manifest.py:85-95 | the byte loop agrees with feeding the message bit by bit |
| `Crc16.CrcIsRemainder` | stellar-swipe/scripts/validate_deployment_manifest.py:85-95 | the checksum is the remainder of the message, shifted by 16 bits, in long division by x^16 + x^12 + x^5 + 1 |
| `Crc16.BurstDetected` | stellar-swipe/scripts/validate_deployment_manifest.py:85-95 | bit strings that differ only inside 16 adjacent bits have different checksums |
| `Crc16.AdjacentBytesDetected` | stellar-swipe/scripts/validate_deployment_manifest.py:85-95 | messages of any equal length that differ only inside two adjacent bytes have different checksums |
| `StrKey.CheckStrKey` | stellar-swipe/scripts/validate_deployment_manifest.py:98-128 | the verdict on a string, with its checks in order |
| `StrKey.AcceptedIff` | stellar-swipe/scripts/validate_deployment_manifest.py:98-128 | exactly the base32 encodings of version byte, 32-byte payload and low-byte-first checksum are accepted |
| `StrKey.FirstLetter` | stellar-swipe/scripts/validate_deployment_manifest.py:79-82 | an accepted account key starts with G and an accepted contract key with C |
| `StrKey.NeighbourChecksum` | stellar-swipe/scripts/validate_deployment_manifest.py:112-120 | of two keys that differ only in two neighbouring characters, wherever they stand, checksum bytes included, at most one has a matching checksum |
| `StrKey.TypingErrorReported` | stellar-swipe/scripts/validate_deployment_manifest.py:98-128 | any error inside two neighbouring characters of a valid StrKey is reported, whichever address type is expected |
| `StrKey.OneAddressType` | stellar-swipe/scripts/validate_deployment_manifest.py:117-127 | no text is valid both as an account and as a contract |
| `Leb128.Decode` | stellar-swipe/scripts/check_wasm_exports.py:58-70 | a read consumes at least one byte and stays inside the data |
| `Leb128.ReadLeb128` | stellar-swipe/scripts/check_wasm_exports.py:58-70 | the loop with shift and or computes the value and byte count of the groups, or fails past the end |
| `Leb128.ReadsEncoding` | stellar-swipe/scripts/check_wasm_exports.py:58-70 | every encoding of a natural, minimal or padded, reads back with its value and length at any position |
| `Leb128.ReadIsEncoding` | stellar-swipe/scripts/check_wasm_exports.py:58-70 | whatever is read was an encoding of the result |
| `Leb128.EncodeReadsBack` | stellar-swipe/scripts/check_wasm_exports.py:58-70 | every natural reads back from its minimal encoding |
| `Leb128.FailsIff` | stellar-swipe/scripts/check_wasm_exports.py:63-69 | a read fails exactly when every byte that is left announces another one |
| `WasmExports.ReadSection` | stellar-swipe/scripts/check_wasm_exports.py:83-88 | id, body and end of one section, clipped as Python slices are |
| `WasmExports.StoreSections` | stellar-swipe/scripts/check_wasm_exports.py:80-89 | the loop fills the dictionary with the sections in file order |
| `WasmExports.ParseWasmSections` | stellar-swipe/scripts/check_wasm_exports.py:73-89 | header errors and the parsed dictionary |
| `WasmExports.ReadEntry` | stellar-swipe/scripts/check_wasm_exports.py:108-115 | name, kind and end of one export |
| `WasmExports.ReadEntries` | stellar-swipe/scripts/check_wasm_exports.py:106-118 | the loop collects the function names |
| `WasmExports.ExtractExportNames` | stellar-swipe/scripts/check_wasm_exports.py:92-118 | the names read from a binary, no names for a bad header, and the failure of a truncated one |
| `WasmExports.ReadSpecPayload` | stellar-swipe/scripts/check_wasm_exports.py:152-158 | the payload of a custom section with the wanted name |
| `WasmExports.ScanSpecPayloads` | stellar-swipe/scripts/check_wasm_exports.py:142-158 | the second scan sees the same sections as the first |
| `WasmExports.CollectSpecPayloads` | stellar-swipe/scripts/check_wasm_exports.py:121-158 | the byte strings that are hashed, in order |
| `WasmFormat.ModuleParsed` | stellar-swipe/scripts/check_wasm_exports.py:73-89 | parsing inverts sections 5.5.2 and 5.5.15 of the WebAssembly Core Specification 1.0, their bytes written out, for any section list with minimal or padded sizes |
| `WasmFormat.HeaderDecides` | stellar-swipe/scripts/check_wasm_exports.py:75-78 | data is refused as no module exactly when it lacks the eight header bytes, and then yields nothing |
| `WasmFormat.StoreLast` | stellar-swipe/scripts/check_wasm_exports.py:87 | of several sections with one id the last body is kept |
| `WasmFormat.ExportNamesRecovered` | stellar-swipe/scripts/check_wasm_exports.py:92-118 | for any module the result is exactly the names of the exports of kind 0 in its (last) section 7, in order |
| `WasmFormat.NoExportsRecovered` | stellar-swipe/scripts/check_wasm_exports.py:99-101 | a module without an export section has no names |
| `WasmFormat.SpecPayloadsRecovered` | stellar-swipe/scripts/check_wasm_exports.py:121-158 | the payloads of all custom sections (id 0) named contractspecv0, in order, and no others |
| `WasmFormat.SpecNameSpells` | stellar-swipe/scripts/check_wasm_exports.py:156 | the bytes of that name |
| `EventSchema.TopicSignature` | scripts/validate_event_schema.py:54-64 | the loop resolves every topic into a literal or a field slot |
| `EventSchema.FieldOrLiteral` | scripts/validate_event_schema.py:54-68 | a literal topic resolves to what it publishes (the event name for symbol:event_name, otherwise what stands after the prefix), any other topic to a field slot |
| `EventSchema.NamesTellApart` | scripts/validate_event_schema.py:58-74 | two events with the single topic symbol:event_name can be confused, and collide, if and only if their names are equal |
| `EventSchema.CollideIffConfusable` | scripts/validate_event_schema.py:67-74 | on resolved signatures, as the check reads them, a collision is exactly a tuple that fits both |
| `EventSchema.AmbiguousCollide` | scripts/validate_event_schema.py:54-74 | events that can publish the same tuple, by the meaning of their topics, always collide |
| `EventSchema.CollideIffAmbiguous` | scripts/validate_event_schema.py:54-74 | without literals that start with a brace, events collide if and only if some tuple could come from either |
| `EventSchema.CheckIsExactIff` | scripts/validate_event_schema.py:54-74 | against all such events the collision check agrees with the meaning if and only if the event has no literal that starts with a brace |
| `EventSchema.BraceMisread` | scripts/validate_event_schema.py:67-68 | for every event with such a literal, an event it is wrongly said to collide with |
| `EventSchema.CollisionErrors` | scripts/validate_event_schema.py:132-137 | one error for exactly each earlier signature that shares a tuple with this one |
| `EventSchema.LiteralErrors` | scripts/validate_event_schema.py:126-131 | exactly the missing-literal fault and the slots that open no brace and match no symbol pattern |
| `EventSchema.LiteralRuleIff` | scripts/validate_event_schema.py:125-131 | the literals are Soroban symbols as documented if and only if the check accepts them and none starts with a brace or ends in a newline |
| `EventSchema.BraceLiteralIsAccepted` | scripts/validate_event_schema.py:126 | a concrete literal that opens a brace and is never checked |
| `EventSchema.NewlineLiteralIsAccepted` | scripts/validate_event_schema.py:46 | a concrete literal that ends in a newline and passes the pattern |
| `EventSchema.FieldErrors` | scripts/validate_event_schema.py:140-144 | the fault of the body fields, none when they are named, unique and of a supported type |
| `EventSchema.EventErrors` | scripts/validate_event_schema.py:111-144 | exactly the faults of one event, with the two early exits; none for a well-formed event that no earlier one of its contract can be mistaken for |
| `EventSchema.EventsErrors` | scripts/validate_event_schema.py:98-144 | the loop over the events with its sets and its dictionary of signatures |
| `EventSchema.ValidateStructure` | scripts/validate_event_schema.py:88-153 | no error if and only if the document is valid; no error and no literal that slips if and only if it meets the documented rules, read off the topics |
| `EventSchema.MissingFamilyRefused` | scripts/validate_event_schema.py:146-148 | a document without one of the five contract families is refused |
| `EventSchema.SupportedTypes` | scripts/validate_event_schema.py:42-45 | the types a body field may have |
| `EventSchema.TupleIdentifiesEvent` | scripts/validate_event_schema.py:98-138 | in a valid schema a tuple that an event of a contract can publish, by the meaning of its topics, comes from no other one |
| `EventSchema.DocumentedIff` | scripts/validate_event_schema.py:4-13 | a document meets the documented rules, read off the topics, if and only if the check accepts it and none of its literals starts with a brace or ends in a newline |
| `EventSchema.BracedDocumentIsAccepted` | scripts/validate_event_schema.py:88-153 | a whole concrete document that is accepted against the documented rules |
| `NonceWindow.NonceWindow.constructor` | contracts/signal_registry/src/event_ordering.rs:145-147 | an empty window of the given capacity |
| `NonceWindow.NonceWindow.Contains` | contracts/signal_registry/src/event_ordering.rs:151-158 | whether a nonce counts as consumed |
| `NonceWindow.NonceWindow.Consume` | contracts/signal_registry/src/event_ordering.rs:163-176 | the new window and the error of the specification, nothing changed on an error |
| `NonceWindow.NonceWindow.Compact` | contracts/signal_registry/src/event_ordering.rs:181-201 | the eviction loop, capacity 0 included |
| `NonceWindow.AcceptExtends` | contracts/signal_registry/src/event_ordering.rs:163-201 | accepting a nonce turns the window of the accepted set into the window of the set with it |
| `NonceWindow.RunIsWindowOfAccepted` | contracts/signal_registry/src/event_ordering.rs:143-202 | after any run the window is a function of the accepted set alone |
| `NonceWindow.RunHoldsNewest` | contracts/signal_registry/src/event_ordering.rs:143-202 | retained is exactly the largest min(capacity, count) accepted nonces in ascending order and the watermark the largest accepted one that is not retained |
| `NonceWindow.NeverAcceptedTwice` | contracts/signal_registry/src/event_ordering.rs:149-176 | an accepted nonce stays consumed through the rest of every run and is never accepted again |
| `NonceWindow.Verdict` | contracts/signal_registry/src/event_ordering.rs:160-176 | which error any nonce gets after any run, in terms of the accepted set |
| `NonceWindow.ConsumedOfSet` | contracts/signal_registry/src/event_ordering.rs:149-158 | consumed means accepted or at or below the watermark |
| `NonceWindow.OrderIsForgotten` | contracts/signal_registry/src/event_ordering.rs:143-202 | runs that accept the same nonces end in the same state |
| `ReplayPreimage.FeedFields` | contracts/signal_registry/src/replay_protection.rs:175-178 | the loop feeds each field behind its length |
| `ReplayPreimage.FeedSubmission` | contracts/signal_registry/src/replay_protection.rs:204-214 | what is hashed for a submission |
| `ReplayPreimage.FeedIdempotencyKey` | contracts/signal_registry/src/replay_protection.rs:171-180 | what is hashed for an idempotency key |
| `ReplayPreimage.TagRoundTrip` | contracts/signal_registry/src/replay_protection.rs:115-131 | a domain reads back from its tag |
| `ReplayPreimage.FieldsRoundTrip` | contracts/signal_registry/src/replay_protection.rs:209-212 | fields shorter than 2^32 bytes read back from the fed bytes |
| `ReplayPreimage.SubmissionLayout` | contracts/signal_registry/src/replay_protection.rs:204-214 | the tag, a zero byte and the domain byte come first, and the fields read back as provider, payload, caller and registry |
| `ReplayPreimage.IdempotencyLayout` | contracts/signal_registry/src/replay_protection.rs:171-180 | the tag and a zero byte come first, and the fields read back as operation and key |
| `ReplayPreimage.TagsSpell` | contracts/signal_registry/src/replay_protection.rs:87-91 | the tags spell their names |
| `ReplayPreimage.DomainBytes` | contracts/signal_registry/src/replay_protection.rs:115-121 | the byte of each domain |
| `ReplayPreimage.SubmissionInjective` | contracts/signal_registry/src/replay_protection.rs:204-214 | equal submission preimages imply equal domain, provider, payload, caller and registry |
| `ReplayPreimage.IdempotencyInjective` | contracts/signal_registry/src/replay_protection.rs:171-180 | equal idempotency preimages imply equal operation and key |
| `ReplayPreimage.DomainsSeparated` | contracts/signal_registry/src/replay_protection.rs:167-214 | no submission preimage is an idempotency preimage, whatever the lengths |
| `ReplayPreimage.SharedDigestIsCollision` | contracts/signal_registry/src/replay_protection.rs:199-214 | whatever the hash, different submissions share a digest if and only if their own two preimages collide under it |
| `ReplayPreimage.HeaderOmitsDomain` | contracts/signal_registry/src/replay_protection.rs:15-25 | the format in the file header is one byte short of what is hashed and does not depend on the domain, which the hashed bytes always tell |
| `ReplayPreimage.LongFieldsCollide` | contracts/signal_registry/src/replay_protection.rs:175-178 | a field of 2^32 bytes and an empty one can be swapped in front of any fields without a change of the fed bytes |
| `ReplayPreimage.LongKeysCollide` | contracts/signal_registry/src/replay_protection.rs:171-180 | two different idempotency keys with one preimage |
| `ReplayPreimage.LongSubmissionsCollide` | contracts/signal_registry/src/replay_protection.rs:204-214 | two different submissions with one preimage |
| `ReplayPreimage.LimitIsExact` | contracts/signal_registry/src/replay_protection.rs:171-180 | a length limit makes all idempotency preimages distinct if and only if it is at most 2^32 |
| `ReplayPreimage.SubmissionLimitIsExact` | contracts/signal_registry/src/replay_protection.rs:204-214 | the same for the preimages of submissions |
| `IntegerSqrt.BabylonianSqrt` | contracts/common/src/liquidity_pool.rs:446-460 | the loop terminates with x*x <= n < (x+1)*(x+1) for every natural n |
| `IntegerSqrt.SqrtBetween` | contracts/common/src/liquidity_pool.rs:426-430 | the root of a product lies between its factors and is at least 1 |
| `DepositLockup.WithdrawFifo` | contracts/common/src/liquidity_pool.rs:236-296 | the two passes with the early exit |
| `DepositLockup.Consume` | contracts/common/src/liquidity_pool.rs:263-289 | the second pass |
| `DepositLockup.WithdrawalTakesOldestUnlocked` | contracts/common/src/liquidity_pool.rs:236-296 | on chronological records a withdrawal fails exactly when the unlocked shares are too few; otherwise exactly that many shares are gone from the front, locked records and order intact |
| `DepositLockup.DroppedSharesWereUnlocked` | contracts/common/src/liquidity_pool.rs:267-288 | every share that leaves had cleared its lock-up |
| `DepositLockup.LockedKept` | contracts/common/src/liquidity_pool.rs:285-288 | no locked record is changed, for records in any order |
| `LiquidityPool.PoolManager.SetLockupDuration` | contracts/common/src/liquidity_pool.rs:409-414 | only the duration changes |
| `LiquidityPool.PoolManager.CreatePool` | contracts/common/src/liquidity_pool.rs:70-141 | the created state or the error, in the order of the checks |
| `LiquidityPool.PoolManager.AddLiquidity` | contracts/common/src/liquidity_pool.rs:144-185 | reserves, shares, position and record after a deposit, or the error with nothing changed |
| `LiquidityPool.PoolManager.RemoveLiquidity` | contracts/common/src/liquidity_pool.rs:195-396 | amounts, guards, records and position after a withdrawal, or the error with nothing changed |
| `LiquidityPool.PoolManager.ReducePosition` | contracts/common/src/liquidity_pool.rs:502-531 | a position is lowered, or removed when nothing is left |
| `LiquidityPool.PoolManager.PushDepositRecord` | contracts/common/src/liquidity_pool.rs:535-550 | one record is appended to the list of the provider |
| `PoolRuns.CreatedIsHealthy` | contracts/common/src/liquidity_pool.rs:82-105 | when creation succeeds; then reserves and shares are positive and the share count lies between the deposits |
| `PoolRuns.MintedWithinDeposit` | contracts/common/src/liquidity_pool.rs:433-443 | minted shares are worth at most the deposit in either token, and one more would not be |
| `PoolRuns.PaidWithinShares` | contracts/common/src/liquidity_pool.rs:220-231 | a payout is worth at most the burnt shares and misses less than one unit, and a reserve left over means shares left over |
| `PoolRuns.RunKeepsHealth` | contracts/common/src/liquidity_pool.rs:144-396 | in every run reserves and shares stay positive and reserve per share never falls for either token |
| `PoolRuns.RoundTripNeverGains` | contracts/common/src/liquidity_pool.rs:160-222 | adding and at once removing the minted shares never returns more than was deposited |
| `PoolRuns.RunConserves` | contracts/common/src/liquidity_pool.rs:166-231 | over every run of any amounts the reserves and shares are the initial ones plus what deposits brought and minted, less what withdrawals paid and burnt |
| `PoolRuns.OnlyCallerMoves` | contracts/common/src/liquidity_pool.rs:471-550 | a call moves the position of its caller by the shares minted or burnt, not below zero, and touches no position or record of anyone else |
| `PoolRuns.RunBalances` | contracts/common/src/liquidity_pool.rs:471-531 | in every run positions exceed the shares of the pool by exactly what was withdrawn beyond positions |
| `PoolRuns.PositionsAddUp` | contracts/common/src/liquidity_pool.rs:471-531 | positions sum to the shares if and only if nobody withdrew more than they held |
| `PoolRuns.RunKeepsRecords` | contracts/common/src/liquidity_pool.rs:236-296 | in every run with non-decreasing time all record lists stay chronological |
| `PoolRuns.RunWithdrawalsRespectLockup` | contracts/common/src/liquidity_pool.rs:187-296 | in every run from a new pool a withdrawal takes exactly the oldest shares of the provider, all unlocked |
| `MintedShares.NewPoolHoldsOneRecord` | contracts/common/src/liquidity_pool.rs:93-127 | a new pool holds exactly one deposit: all its shares, made by the creator at the creation |
| `MintedShares.RecordsAreMintedShares` | contracts/common/src/liquidity_pool.rs:126-296 | in every run of a new pool the records of a provider are exactly the shares its calls minted, each with the time of that call, without the oldest ones withdrawn under a lock-up |
| `MintedShares.WithdrawnSharesAreOldEnough` | contracts/common/src/liquidity_pool.rs:187-296 | in every run each share withdrawn under a lock-up was minted by a call at least the duration earlier, and is among the oldest not yet withdrawn |
| `PoolCalls.CreationVerdict` | contracts/common/src/liquidity_pool.rs:82-93 | when a creation is refused, and for what |
| `PoolCalls.RefusedForLiquidityIff` | contracts/common/src/liquidity_pool.rs:219-231 | a withdrawal is refused for liquidity exactly when it would leave less than 1000 of a token, told without a division |
| `PoolCalls.NoPoolIff` | contracts/common/src/liquidity_pool.rs:153-207 | calls on a missing pool are refused for that, and only those |
| `PoolCalls.LockupIsSetLast` | contracts/common/src/liquidity_pool.rs:409-423 | in every run the duration is the one set last |
| `PoolHealth.StepKeepsHealthIff` | contracts/common/src/liquidity_pool.rs:144-396 | a call of any amounts, negative ones included, keeps reserves and shares positive and value per share from falling if and only if it takes no whole reserve and rounds nothing in favour of the caller |
| `PoolHealth.HarmlessRunKeepsHealth` | contracts/common/src/liquidity_pool.rs:144-396 | every run of such calls keeps the pool healthy and undiluted |
| `PoolHealth.NegativeDepositTakesForNothing` | contracts/common/src/liquidity_pool.rs:160-169 | in a concrete new pool a negative deposit takes tokens out for no shares |
| `LockupRuns.StepKeepsMatch` | contracts/common/src/liquidity_pool.rs:144-296 | while the lock-up is on every call keeps each position equal to the total of its deposit records, and none overdraws |
| `LockupRuns.LockedPoolNeverOverdrawn` | contracts/common/src/liquidity_pool.rs:70-396 | in every run with a lock-up that is never switched off nobody overdraws, so positions sum to the shares |
| `LockupRuns.StrangerCanOverdraw` | contracts/common/src/liquidity_pool.rs:195-396 | without a lock-up an address that holds nothing withdraws most of a new pool |
| `LockupRuns.CoveredPoolNeverOverdrawn` | contracts/common/src/liquidity_pool.rs:195-296 | from any state with the lock-up on in which positions cover the deposit records, however it was reached, nobody overdraws while the lock-up stays on |
| `LockupRuns.GuardAllowsOverdraftIff` | contracts/common/src/liquidity_pool.rs:236-296 | some withdrawal beyond the position passes the guard if and only if the records hold more shares than the position |
| `LockupRuns.ReenabledLockupCanOverdraw` | contracts/common/src/liquidity_pool.rs:236-296 | a concrete run with the lock-up switched on after a withdrawal, after which a provider without a position withdraws again |
| `LockupRuns.AgreesIffAllCurrent` | contracts/common/src/liquidity_pool.rs:236-296 | the guard of a withdrawal agrees with the documented rule (each deposit locked by the duration it was made under, nothing enforced at duration 0) for every amount and time if and only if the lock-up is off or every deposit with shares was made under the current duration |
| `LockupRuns.LockedExactlyAsDocumented` | contracts/common/src/liquidity_pool.rs:195-261 | then a withdrawal is refused as locked if and only if both reserve guards pass and the documented rule refuses it |
| `LockupRuns.OffNeverLocks` | contracts/common/src/liquidity_pool.rs:236-237 | at duration 0 nothing is refused as locked and no record is consumed |
| `LockupRuns.RunAgreesIff` | contracts/common/src/liquidity_pool.rs:402-414 | the same agreement after every run of a new pool, with the durations in force at each deposit carried along, if and only if the lock-up is off or all deposits with shares are current |
| `LockupRuns.UnchangedLockupIsCurrent` | contracts/common/src/liquidity_pool.rs:409-414 | in a run that never changes the duration every deposit was made under the current one |
| `LockupRuns.LongerLockupReachesBack` | contracts/common/src/liquidity_pool.rs:236-261 | a concrete deposit that was free and is locked again by a longer duration |
| `Reputation.ReputationLedger.ValidateSchedule` | contracts/signal_registry/src/lib.rs:807-818 | which schedules are refused |
| `Reputation.ReputationLedger.Initialize` | contracts/signal_registry/src/lib.rs:348-357 | admin and schedule, or the error of the first failing check with nothing changed |
| `Reputation.ReputationLedger.SetDecaySchedule` | contracts/signal_registry/src/lib.rs:404-433 | the new schedule and its event for an authorised admin with a fresh key, or the error of the first failing check with nothing changed |
| `Reputation.ReputationLedger.UpdateReputation` | contracts/signal_registry/src/lib.rs:699-726 | decay, saturating delta, clamp and store, or the error with nothing changed |
| `Reputation.ReputationLedger.GetReputation` | contracts/signal_registry/src/lib.rs:730-739 | the decayed score without a change of state |
| `Reputation.ReputationLedger.AdvanceReputationDecay` | contracts/signal_registry/src/signal_lifecycle.rs:427-456 | the stored and returned checkpoint, or the error with nothing changed |
| `Reputation.DirectIsAllIntervals` | contracts/signal_registry/src/signal_lifecycle.rs:537-560 | the direct decay is the checkpointed score at all due intervals |
| `Reputation.LostGrows` | contracts/signal_registry/src/lib.rs:767-793 | more intervals never lose less, saturation included |
| `Reputation.UntouchedDecays` | contracts/signal_registry/src/lib.rs:767-804 | left alone, a score is non-increasing in time and stays within the bounds |
| `Reputation.DueAt` | contracts/signal_registry/src/signal_lifecycle.rs:537-548 | exactly n intervals are due once the grace period and n intervals have passed |
| `ReputationRuns.IdleNeverRisesIff` | contracts/signal_registry/src/lib.rs:767-804 | over a time in which 10000 intervals fall due an idle score, of either sign, never rises if and only if it is not negative, the rate is zero or it stands at the upper bound |
| `ReputationRuns.NegativeScoreRises` | contracts/signal_registry/src/lib.rs:785-792 | a concrete negative score that grows with inactivity |
| `ReputationRuns.TouchNeverHurts` | contracts/signal_registry/src/lib.rs:767-804 | a record refreshed at any intermediate time is later worth at least as much as one left alone, when the decay product fits i128 |
| `TouchSafety.TouchSafeUntil` | contracts/signal_registry/src/lib.rs:767-804 | for every schedule and every horizon, the end of the 64-bit clock included: no refresh up to then hurts if and only if the bounds are at most I128_MAX/10000 apart or the greatest score, decayed over any two spans that fit, never loses more than that in both together |
| `TouchSafety.TouchSafeIff` | contracts/signal_registry/src/lib.rs:767-804 | without a horizon: if and only if the rate is zero, or the bounds are at most I128_MAX/10000 apart, or scores are too small for a refresh to leave a remainder |
| `TouchSafety.TouchSafeWithinClock` | contracts/signal_registry/src/lib.rs:767-804 | within the 64-bit clock, for bounds that are not negative and a schedule of which 20000 intervals fit: if and only if the rate is zero or the bounds are at most I128_MAX/10000 apart |
| `TouchSafety.ZeroUpdateIsSafe` | contracts/signal_registry/src/lib.rs:699-739 | under a safe schedule update_reputation with delta 0 never lowers a later get_reputation, without a bound on the product |
| `ReputationRuns.ZeroUpdateNeverHurts` | contracts/signal_registry/src/lib.rs:699-739 | the same for update_reputation with delta 0 and get_reputation on stored state |
| `ReputationRuns.UpdateMovesByDelta` | contracts/signal_registry/src/lib.rs:699-739 | an update moves the current reading by exactly delta, stopping at the bounds, and no other provider at any time |
| `ReputationRuns.RefusalsAndEffects` | contracts/signal_registry/src/lib.rs:699-739 | which calls are refused for what, and that an update changes one record and its time only |
| `ReputationRuns.TouchCanHurtWhenSaturated` | contracts/signal_registry/src/lib.rs:767-793 | a concrete schedule and score where the product leaves i128 and a refresh does hurt |
| `ReputationRuns.AdvanceIsBounded` | contracts/signal_registry/src/signal_lifecycle.rs:427-456 | a call advances by 32 intervals or to what is due, never beyond; complete exactly when all are applied, and then equal to the direct reading |
| `ReputationRuns.RunKeepsLedger` | contracts/signal_registry/src/signal_lifecycle.rs:427-456 | in every interleaving of updates and advances scores stay in bounds, no checkpoint of a current record is ahead of what is due, and one that has applied an interval stores the score of its record at that interval |
| `ReputationRuns.UpdateGoesStaleIff` | contracts/signal_registry/src/signal_lifecycle.rs:122-133 | an update leaves a stored checkpoint that still counts as current with a wrong score if and only if it changes the score in the second of the last update |
| `ReputationRuns.StoredCheckpointsAreRight` | contracts/signal_registry/src/signal_lifecycle.rs:122-133 | in every run without such an update all stored checkpoints of current records have the right score |
| `ReputationRuns.StoredCheckpointCanBeStale` | contracts/signal_registry/src/signal_lifecycle.rs:439-440 | a concrete run that leaves a complete checkpoint with the score before the last update |
| `ReputationRuns.CompleteMeansConverged` | contracts/signal_registry/src/signal_lifecycle.rs:427-456 | after any run the checkpoint that an advance returns as complete equals get_reputation |
| `ReputationRuns.RepeatedProgress` | contracts/signal_registry/src/signal_lifecycle.rs:427-456 | how far any number of calls at one time gets |
| `ReputationRuns.ConvergesAfter` | contracts/signal_registry/src/signal_lifecycle.rs:427-456 | the n-th call completes exactly when 32 n intervals cover what is left, so ceil(due/32) calls suffice and no fewer do |
| `SignalCatalog.StepKeepsCatalog` | contracts/signal_registry/src/signal_lifecycle.rs:143-253 | every call keeps exact revision histories and stored categories, rewrites no revision and undoes no tombstone |
| `SignalCatalog.GetSignalHistory` | contracts/signal_registry/src/signal_lifecycle.rs:263-284 | the loop returns the page, with the overflow of its counter at the largest u32 |
| `SignalCatalog.PagesConcatenate` | contracts/signal_registry/src/signal_lifecycle.rs:263-284 | pages of any legal size from 1 concatenate to the full history, if and only if the current revision is below the largest u32 |
| `SignalCatalog.PageVerdict` | contracts/signal_registry/src/signal_lifecycle.rs:269-272 | when a page is refused, and that it has at most 50 revisions |
| `ModerationAppeals.StepKeepsDocket` | contracts/signal_registry/src/signal_lifecycle.rs:291-410 | every call keeps the case files consistent and only moves cases forward |
| `ModerationAppeals.ResolveOrExpire` | contracts/signal_registry/src/signal_lifecycle.rs:377-410 | the time guards of resolve and expire never both pass, and for the assigned reviewer exactly one does |
| `ModerationAppeals.StatusMovesAreEntitled` | contracts/signal_registry/src/signal_lifecycle.rs:317-410 | a case moves, one status at a time, if and only if the call is about it and from the entitled caller: the admin decides, the provider of the signal appeals, the assigned reviewer resolves before the deadline, anyone expires after it |
| `ModerationAppeals.FinishKeeps` | contracts/signal_registry/src/signal_lifecycle.rs:508-534 | closing an appeal keeps the docket consistent and emits its one event |
| `RegistryCalls.VerdictIsTheReviewers` | contracts/signal_registry/src/signal_lifecycle.rs:377-398 | an accepted resolution records and publishes the verdict and the reason the reviewer gave |
| `ModerationAppeals.PublishedIsTheVerdict` | contracts/signal_registry/src/signal_lifecycle.rs:494-534 | every event is the only one of a resolved case and tells its verdict; an approval came from the assigned reviewer in time |
| `SignalRegistry.Registry.CreateCategory` | contracts/signal_registry/src/signal_lifecycle.rs:143-158 | the category is stored, or the error with nothing changed |
| `SignalRegistry.Registry.DeleteCategory` | contracts/signal_registry/src/signal_lifecycle.rs:162-178 | the category becomes a tombstone, or the error with nothing changed |
| `SignalRegistry.Registry.CreateSignal` | contracts/signal_registry/src/signal_lifecycle.rs:190-214 | a new signal with revision 1, or the error with nothing changed |
| `SignalRegistry.Registry.PutRevision` | contracts/signal_registry/src/signal_lifecycle.rs:481-485 | one revision is stored |
| `SignalRegistry.Registry.EditSignal` | contracts/signal_registry/src/signal_lifecycle.rs:218-243 | the next revision, or the error with nothing changed |
| `SignalRegistry.Registry.SetAppealReviewer` | contracts/signal_registry/src/signal_lifecycle.rs:291-301 | the reviewer is registered or removed |
| `SignalRegistry.Registry.OpenModerationCase` | contracts/signal_registry/src/signal_lifecycle.rs:304-314 | a new open case |
| `SignalRegistry.Registry.DecideModerationCase` | contracts/signal_registry/src/signal_lifecycle.rs:317-326 | an open case is decided |
| `SignalRegistry.Registry.SubmitAppeal` | contracts/signal_registry/src/signal_lifecycle.rs:330-357 | the appeal of the provider of the signal |
| `SignalRegistry.Registry.ReviewAppeal` | contracts/signal_registry/src/signal_lifecycle.rs:361-374 | a reviewer other than the appellant is assigned |
| `SignalRegistry.Registry.ResolveAppeal` | contracts/signal_registry/src/signal_lifecycle.rs:377-398 | the verdict of the assigned reviewer before the deadline |
| `SignalRegistry.Registry.ExpireAppeal` | contracts/signal_registry/src/signal_lifecycle.rs:402-410 | the rejection by timeout |
| `SignalRegistry.Registry.FinishAppeal` | contracts/signal_registry/src/signal_lifecycle.rs:508-534 | verdict, status and event of a closed appeal |
| `SignalRegistry.RunKeepsRegistry` | contracts/signal_registry/src/signal_lifecycle.rs:143-410 | in every reachable state a signal at revision n has stored exactly 1 to n, all by its provider at non-decreasing times, in a stored category; and a case has an appeal exactly from Appealed on and a verdict exactly in AppealResolved |
| `SignalRegistry.NothingUndone` | contracts/signal_registry/src/signal_lifecycle.rs:143-410 | along every run no revision is rewritten, labels and tombstones stay, cases only move forward |
| `SignalRegistry.HistoryIsWhatWasWritten` | contracts/signal_registry/src/signal_lifecycle.rs:190-243 | in every run the revisions of a signal are exactly the contents of the accepted calls on it, in order, with their times and its provider |
| `SignalRegistry.LabelForever` | contracts/signal_registry/src/signal_lifecycle.rs:250-253 | the category label of a signal never changes or disappears |
| `SignalRegistry.TombstonesArePermanent` | contracts/signal_registry/src/signal_lifecycle.rs:143-214 | a tombstoned category never accepts a signal or a re-creation |
| `SignalRegistry.OneEventPerResolvedCase` | contracts/signal_registry/src/signal_lifecycle.rs:508-534 | exactly one resolved event per resolved case, none for another |
| `SignalRegistry.ApprovalsAreReviewed` | contracts/signal_registry/src/signal_lifecycle.rs:361-398 | every approval in any run is by the assigned reviewer, who is not the appellant, before the timeout; the appellant is the provider of the signal |
| `RegistryCalls.CatalogAcceptedIff` | contracts/signal_registry/src/signal_lifecycle.rs:143-243 | exactly which category and signal calls are accepted, the signature of the admin or of the provider included |
| `RegistryCalls.CatalogRefusalMeans` | contracts/signal_registry/src/signal_lifecycle.rs:143-243 | what each refusal of such a call says about the state |
| `RegistryCalls.DocketAcceptedIff` | contracts/signal_registry/src/signal_lifecycle.rs:291-410 | exactly which moderation calls are accepted, signatures and the seven days included |
| `RegistryCalls.DocketRefusalMeans` | contracts/signal_registry/src/signal_lifecycle.rs:291-505 | what each refusal of such a call says about the state |
| `RegistryCalls.CategoryIsItsStory` | contracts/signal_registry/src/signal_lifecycle.rs:143-178 | in every run a category has the label of its creation and is tombstoned, since that time, exactly if an accepted call deleted it |
| `RegistryCalls.SignalIsAsMade` | contracts/signal_registry/src/signal_lifecycle.rs:190-214 | in every run a signal has the provider and the category of the call that created it, and signals are numbered by accepted creations |
| `RegistryCalls.LabelIsTheCreated` | contracts/signal_registry/src/signal_lifecycle.rs:249-253 | in every run the label read for a signal is the one its category was created with |
| `RegistryCalls.ReviewersAreRegistered` | contracts/signal_registry/src/signal_lifecycle.rs:291-301 | in every run the reviewers are those whom the last accepted call about them enabled |
| `RegistryCalls.CaseIsItsFile` | contracts/signal_registry/src/signal_lifecycle.rs:304-410 | in every run a case, its appeal and its published resolution are exactly what the accepted calls about it gave: signal, reasons, appellant, times, reviewer and verdict |
| `RegistryCalls.ApprovalsComeFromReviewers` | contracts/signal_registry/src/signal_lifecycle.rs:377-398 | every approving event of a run comes from an accepted call in which the reviewer approved, for that reason at that time |
| `Rebates.DistributeRebates` | contracts/fee_collector/src/rewards.rs:131-179 | the distribution, or the abort exactly when a partial sum of the claims leaves i128 |
| `Rebates.ScaleClaims` | contracts/fee_collector/src/rewards.rs:157-169 | the loop scales every claim and sums what it pays |
| `Rebates.RebatesRespectCap` | contracts/fee_collector/src/rewards.rs:131-179 | payouts never sum above the cap, none exceeds its claim, a larger claim never gets less, the event tells the true sum, and a cap that applies is missed by less than one unit per claim |
| `Rebates.CapWithinFees` | contracts/fee_collector/src/rewards.rs:146-148 | the cap is its share of the fees rounded down, never above the fees, saturation included |
| `Rebates.CapIsExhaustedIff` | contracts/fee_collector/src/rewards.rs:127-169 | when the cap applies, payouts sum to it if and only if no scaled claim saturates and every one is a whole number |
| `Rebates.PayoutsCanMissCap` | contracts/fee_collector/src/rewards.rs:127-130 | three concrete claims that are paid nothing under a cap of two |
| `Vesting.FeeCollectorSchedule.QuoteReleasable` | contracts/fee_collector/src/rewards.rs:347-361 | the preview agrees with what a release would pay, and with the cliff error |
| `Vesting.FeeCollectorSchedule.ReleaseVestedRewards` | contracts/fee_collector/src/rewards.rs:363-378 | the payment and the released amount, nothing changed on an error |
| `Vesting.FeeCollectorSchedule.constructor` | contracts/fee_collector/src/rewards.rs:309-321 | a schedule with nothing released |
| `Vesting.StakeVaultSchedule.constructor` | contracts/stake_vault/src/rewards.rs:120-128 | a schedule with nothing released |
| `Vesting.StakeVaultSchedule.Release` | contracts/stake_vault/src/rewards.rs:156-160 | the payment and the released amount |
| `Vesting.OptimizedSchedule.constructor` | contracts/stake_vault/src/rewards_optimized.rs:133-144 | a fresh schedule without a cliff |
| `Vesting.OptimizedSchedule.ReleaseVestedRewards` | contracts/stake_vault/src/rewards_optimized.rs:193-207 | the payment and the released amount |
| `Vesting.VestedRises` | contracts/fee_collector/src/rewards.rs:325-339 | each of the three curves is non-decreasing and between 0 and the total |
| `Vesting.CurveIsLinear` | contracts/fee_collector/src/rewards.rs:325-339 | in all three versions nothing before the cliff, the total once the duration is over, and in between the elapsed part of it to within one unit |
| `Vesting.CliffedVersionsAgree` | contracts/stake_vault/src/rewards.rs:135-146 | the two cliffed versions agree everywhere |
| `Vesting.CliffFreeAgreesIff` | contracts/stake_vault/src/rewards_optimized.rs:151-170 | at cliff 0 the third version agrees with them if and only if it is not the start of an instant plan with a positive total |
| `Vesting.PathIndependence` | contracts/fee_collector/src/rewards.rs:363-378 | releases at any non-decreasing times pay in all what one release at the last time would, never above the total, in all three versions |
| `Vesting.PaymentsFollowCurve` | contracts/stake_vault/src/rewards.rs:150-160 | from a fresh schedule all payments sum to the curve at the last time |
| `StakeVault.Contract.Initialize` | contracts/stake_vault/src/lib.rs:102-113 | admin, limit and a zero total, or the error with nothing changed |
| `StakeVault.Contract.SetMaxProviderShareBps` | contracts/stake_vault/src/lib.rs:122-132 | the new limit for an authorised admin, or the error |
| `StakeVault.Contract.SetPaused` | contracts/stake_vault/src/lib.rs:139-155 | the pause flag and its event, or the error |
| `StakeVault.Contract.Delegate` | contracts/stake_vault/src/lib.rs:170-229 | stake, total and event, or the error of the first failing check with nothing changed |
| `StakeVault.Contract.Withdraw` | contracts/stake_vault/src/lib.rs:235-285 | stake (dropped when empty), total and event, or the error with nothing changed |
| `StakeVault.Contract.EmitStakeChanged` | contracts/stake_vault/src/lib.rs:292-310 | one event is appended |
| `StakeVault.StepKeepsVault` | contracts/stake_vault/src/lib.rs:170-285 | every call keeps stakes positive and moves the cached total and the true sum alike, except initialize |
| `StakeVault.RunKeepsVault` | contracts/stake_vault/src/lib.rs:102-285 | over every run, repeated initialize included, stakes are positive and the sum exceeds the cached total by exactly the stake held at the last initialize |
| `StakeVault.SingleInitialize` | contracts/stake_vault/src/lib.rs:98-113 | a run that initializes once, first, meets an empty vault |
| `StakeVault.TotalIsSum` | contracts/stake_vault/src/lib.rs:187-216 | in such a run the cached total is the sum of the stored stakes in every state |
| `StakeVault.InitializeKeepsTotalIff` | contracts/stake_vault/src/lib.rs:102-113 | initialize leaves a true total if and only if no stake is stored |
| `StakeVault.SecondInitializeLosesStake` | contracts/stake_vault/src/lib.rs:111 | a concrete run after which the total no longer counts a stored stake |
| `StakeVault.WithdrawalIsOpen` | contracts/stake_vault/src/lib.rs:231-272 | a withdrawal succeeds exactly for an authorised provider and an amount it holds, whatever the pause and the limit; no subtraction goes below zero |
| `StakeVault.WithdrawalUndoesDelegation` | contracts/stake_vault/src/lib.rs:170-285 | delegating and withdrawing the same amount restores every balance |
| `StakeVault.DelegationRespectsLimit` | contracts/stake_vault/src/lib.rs:170-211 | a delegation is accepted exactly when the new share is within the limit and everything is representable |
| `StakeVault.AboveLimitIsRejected` | contracts/stake_vault/src/lib.rs:117-121 | a provider above the limit receives no further delegation of any amount |
| `StakeVault.WithdrawalMovesShares` | contracts/stake_vault/src/lib.rs:231-235 | a withdrawal never raises the share of the withdrawer, and raises the share of exactly the other providers that hold stake |
| `StakeVault.WithdrawalCanRaiseConcentration` | contracts/stake_vault/src/lib.rs:231-235 | two concrete providers, one of whom rises above a limit when the other withdraws |
| `StakeVault.FirstDelegationNeedsFullShare` | contracts/stake_vault/src/lib.rs:330-346 | into an empty vault a delegation succeeds only at a limit of 10000 bps |
| `StakeVault.EmptyStaysEmpty` | contracts/stake_vault/src/lib.rs:122-229 | an empty vault with a lower limit stays empty in every run until the limit is raised to the full share |
| `StakeVault.StepMirrors` | contracts/stake_vault/src/lib.rs:287-310 | one event per accepted balance or pause change, none for a rejected call |
| `StakeVault.EventsRebuildStakes` | contracts/stake_vault/src/lib.rs:78-91 | over every run, repeated initialize included, folding the amounts of the events rebuilds every stored stake and their true sum, which is the cached total if and only if the last initialize overlooked no stake |
| `StakeVault.EventsRebuildBalances` | contracts/stake_vault/src/lib.rs:78-91 | in a run whose initialize calls met no stake, the events also rebuild the cached total, and every event reports the balances of its moment |
| `VaultCalls.ConfigAcceptedIff` | contracts/stake_vault/src/lib.rs:102-155 | exactly which configuration calls are accepted, the signature of the admin included |
| `VaultCalls.RefusalMeans` | contracts/stake_vault/src/lib.rs:102-358 | what each error says about the call and the state |
| `VaultCalls.ConfigIsLastGiven` | contracts/stake_vault/src/lib.rs:102-155 | in every run the admin, the limit and the pause are the ones the accepted calls gave last |
| `VaultCalls.PauseIsAnnounced` | contracts/stake_vault/src/lib.rs:146-153 | an accepted change of the pause appends its event and changes nothing else |
| `VaultCalls.StakeIsNet` | contracts/stake_vault/src/lib.rs:170-285 | in every run the stake of a provider is what accepted calls delegated to it less what they withdrew |

## Left out

- Frontend, monitors, deploy and RPC scripts, build scripts: input, output and user interface.
- SHA-256, JSON parsing and UTF-8 decoding: library code. Export names are compared as bytes, before decoding with replacement characters.
- The text of error messages; errors are values, and several messages of the manifest check share one.
- Python's recursion limit in the cycle search, and non-ASCII white space in `strip()`.
- The typing of JSON fields in the event schema (records start out typed) and the comparison with a lock file.
- `LockupAdmin` and `consume_locked_shares` (not defined in liquidity_pool.rs) and the second record push of `create_pool`; one record per deposit is modelled.
- Deposited amounts, impermanent loss, fees and token identifiers of positions, and `rebalance_pool` and the other pool extras; they do not enter reserves, shares or lock-ups, except rebalancing, which moves value between the reserves.
- More than one pool: the model is of one pool identifier, whose storage no other identifier shares.
- u64 overflow of deposit time plus lock-up, and i128 overflow while unlocked shares are counted.
- PoolRuns.RunKeepsHealth: is stated for non-negative amounts and shares; the exact condition on any amounts is PoolHealth.StepKeepsHealthIff.
- ReputationRuns.TouchNeverHurts: needs the decay product inside i128; which schedules need no such bound is TouchSafety.TouchSafeIff.
- ReputationRuns.ZeroUpdateNeverHurts: the same; without the bound it is TouchSafety.ZeroUpdateIsSafe.
- TouchSafety.TouchSafeIff: takes time as any natural number; for bounds below zero the refresh its proof exhibits lies beyond the 64-bit clock. The condition exact within the clock is TouchSafety.TouchSafeUntil.
- Reputation.UntouchedDecays: is stated for scores that are not negative; the condition for scores of either sign is ReputationRuns.IdleNeverRisesIff.
- StakeVault.EventsRebuildBalances: needs every initialize to meet an empty vault; without that it is StakeVault.EventsRebuildStakes.
- Changes of the decay schedule in the middle of a checkpoint.
- The metadata policy (its verdict is an input), provider metadata, admin handoff, record tombstones and the storage of idempotency keys in the registry (whether a key is fresh is an input).
- The event of a category deletion, the event sequence allocator and `validate_replay_order`.
- Overflow of the u64 signal and case counters. The head and the revisions of a signal are one map entry here and several storage keys in the source.
- The operations of `ReplayProtection`, which replay_protection.rs ends before.
- Vesting.PathIndependence: needs a non-negative total and, for the two versions that do not saturate, products inside i128, since they would abort.
- `BalanceLedger`, `unvested_amount`, `batch_distribute_rewards`, `sweep_dust`, liquidity mining, `get_relationships`, `MigrationExecutor`.
- The body of the loop in `Visit` is the method `Follow`, the inner loop of the checksum the method `AbsorbByte`, and the bodies of the loops over dependencies the methods `OneDependencyErrors` and `OneVersionErrors`.
- EventSchema.EventsErrors: says which documents have no error; which error each faulty event of a whole document gets is stated for one event (EventSchema.EventErrors).
- Crc16.AdjacentBytesDetected: is about the message; an error that straddles the message and the stored checksum is covered by StrKey.NeighbourChecksum, for neighbouring characters.

# A model of the rollup end-to-end testing framework's core

The repository drives docker containers, chains and relayers through end-to-end tests. Behind that
plumbing lie a few small protocols and algorithms that everything else relies on. This project models
them in Dafny and proves what they are for.

* **Block history** (`tables`, `block_store`, `block_content`, `block_db`, `block_query`, `aggregate_view`,
  `recent_tests`, `collector`): SQLite tables with autoincrement keys, foreign keys, uniqueness and cascades; the
  transactional `saveBlock`; the collectors that feed it; the queries that read it. Everything is proved
  against one abstract value, a map from (chain, height) to the block's transactions with their events
  and attributes.
* **Host ports** (`ports`, `port_runs`, `container_lifecycle`): a state machine over the steps of any number
  of goroutines that allocate, create, start, stop and remove containers, what holds of its runs, and the
  methods behind the steps.
* **Monikers** (`moniker`, `numerals`): 32-bit FNV-1, base-36 printing and condensing, over bytes.
* **Events** (`base64`, `events`): RFC 4648 section 4 in Go's `StdEncoding` reading, the eIBC mappers and
  `AttributeValue`.
* **Configuration** (`toml`): the recursive override of nested maps, in place and for every iteration order.
* **Pollers** (`block_poller`, `finalization`): the block-by-block packet search, and the wait for a
  finalized rollapp height.
* **Setup** (`setup_builder`, `chains`, `hub_rollapps`, `slice_removal`): the builder with its panics and
  wallet generation, and the hub's rollapp slice, whose removal loop ranges over a slice that it shifts.
* **Reporting** (`reporter`, `highlight`): the bounded message channel with its one writer, and search
  highlighting.

Results that differ from what the source's comments or readers may expect:

* `CHECK (length(height > 0))` and `CHECK (length(data > 0))` measure the text of a truth value and so
  never fail; heights of zero or below and empty data are accepted (blockdb/migrate.go:103-119).
* A section missing from a TOML file is never populated afresh: the merge fails instead
  (`TomlMerge.MergeableExactly`, `TomlMerge.FreshSectionFails`).
* `recipient` is stored as the rollapp ID; the record's recipient stays empty (dymension/utils.go:55-56, 99-100).
* Restarting a stopped container holds no listeners, and read locks do not exclude each other, so a
  restart can take the port another container has just released for its first start
  (`PortRuns.RestartCanSteal`). Allocation is proved safe in all runs. A start is contested when another
  lifecycle claims, or is itself starting with, one of the container's ports, or a lost listener holds one;
  the starts of a run are safe if and only if none is contested (`PortRuns.SafeExactlyUncontested`), and from
  every reachable state a contested start can be continued to two claimants or a refused start.
* A container that is removed before its start keeps its listeners open (`PortRuns.RemovedKeepsListeners`); in
  runs without a repeated create this is the only way in which an idle listener can belong to no created
  container (`PortRuns.TidyExactly`).
* A plain event is taken for an encoded one exactly when its first key happens to be base64 text; for such
  a key the two forms of an event can map differently (`Events.KeyIsTransparentExactly`). A plain key that
  decodes to a sought one can be answered for (`Events.LookupIgnoresEncodingExactly`).
* A report sent while `Close` is under way can be written behind FinishSuite; FinishSuite is last if and only
  if none is (`Reporting.FinishIsLastExactly`).
* `RemoveRollApp` is exact if and only if no two matching rollapps are neighbours and a matching last one
  is the only match; otherwise one stays or the slice expression panics (`SliceRemoval.RemovalIsExact`,
  `SliceRemoval.TwinsGoWrong`). Rollapps added through `AddRollUp` always meet the condition.
* A failed `generateRelayerWallets` leaves its map behind, so trying again panics.

## Model

| member | source | states |
|---|---|---|
| `BlockStore.ContentAt` | blockdb/migrate.go:103-112 | UNIQUE(height, chain) makes the represented map well defined: each block row is the map's entry at its key |
| `BlockStore.RunSplit` | blockdb/chain.go:47-84 | a save is its statements run in order, and the first failure fails the whole |
| `Tables.InsertSelect` | blockdb/migrate.go:114-119 | an INSERT appends to its parent's rows in id order and to no other parent's |
| `Tables.DeleteSelect` | blockdb/migrate.go:118 | deleting other rows leaves a parent's rows alone |
| `BlockContent.DeleteBlocksEffect` | blockdb/migrate.go:109-145 | the ON DELETE CASCADE chain leaves no orphan transaction, event or attribute, and the surviving blocks keep theirs |
| `BlockContent.ReplaceBlockEffect` | blockdb/chain.go:47 | INSERT OR REPLACE puts an empty block at the key and changes no other key |
| `BlockContent.AttrProgramEffect` | blockdb/chain.go:76-81 | the attribute loop succeeds exactly when every key passes its CHECK, and then appends those attributes to the event in hand only |
| `BlockContent.EventProgramEffect` | blockdb/chain.go:65-82 | the event loop succeeds exactly when the events are acceptable, and then appends them, attributes included, to the transaction in hand only |
| `BlockContent.TxProgramEffect` | blockdb/chain.go:56-84 | the same for the transactions of a block |
| `BlockContent.SaveProgramSucceeds` | blockdb/chain.go:47-84 | a save is refused by the schema if and only if the chain row is missing or some event type or attribute key is empty |
| `BlockContent.TxsOkExactly` | blockdb/migrate.go:129-145 | what the text CHECKs refuse: an empty event type or attribute key, or one that begins with NUL |
| `BlockContent.SaveProgramRefinesUpdate` | blockdb/chain.go:40-87 | a save that goes through is the map update at (chain, height), with all constraints still holding |
| `BlockDb.Database.ExecInsert` | blockdb/chain.go:47-55 | one statement: what it inserts, and that a refused one changes nothing |
| `BlockDb.Database.CreateTestCase` | blockdb/test_case.go:15-28 | when a test case is accepted, the row it adds, and that nothing else changes |
| `BlockDb.Database.AddChain` | blockdb/test_case.go:33-46 | when a chain is accepted (unique per test case), the row it adds, that nothing else changes, and that it starts without blocks |
| `BlockDb.Chain.SaveEvent` | blockdb/chain.go:65-82 | the inner loops run exactly the statements of the specification |
| `BlockDb.Chain.SaveTx` | blockdb/chain.go:56-83 | the same, one loop further out |
| `BlockDb.Chain.SaveRows` | blockdb/chain.go:47-84 | the same for all statements between BEGIN and COMMIT |
| `BlockDb.Chain.SaveBlock` | blockdb/chain.go:40-87 | success exactly when schema and environment allow it; then the map is updated at one key; on any failure the tables are as before |
| `BlockDb.SavingTwiceIsSavingOnce` | blockdb/chain.go:28-31 | saving the same block again succeeds and leaves the represented content equal |
| `BlockQuery.Query.Transactions` | blockdb/query.go:179-200 | the results are the map's transactions of that chain, height by height, in insertion order |
| `BlockQuery.JoinAtHeight` | blockdb/query.go:180-184 | at one height the ordered join lists one block's rows, in insertion order |
| `BlockQuery.SortedIsGathered` | blockdb/query.go:184 | rows sorted by height are the per-height lists one after another |
| `BlockQuery.TransactionsReadTheMap` | blockdb/query.go:177-184 | the query is a reading of the represented map, independent of row ids |
| `AggregateView.AggregateGroup` | blockdb/migrate.go:259-260 | maximum height (NULL as zero) and number of non-NULL transactions of a group |
| `AggregateView.MaxHeight` | blockdb/migrate.go:259 | the maximum occurs in the group and bounds it |
| `AggregateView.SelectedHeights` | blockdb/migrate.go:261-263 | the heights joined to a chain are the heights its part of the map has |
| `AggregateView.CountByBlock` | blockdb/migrate.go:260-264 | counting block by block counts every joined transaction once |
| `AggregateView.JoinKeepsGroups` | blockdb/migrate.go:263-265 | joining blocks and transactions commutes with picking a group |
| `AggregateView.ViewIsGrouped` | blockdb/migrate.go:261-265 | in the whole join, test case t and chain c form a group exactly when c is a chain of t, and it is c's own part of the join; the NULL-chain groups are exactly the test cases without chains, which blockdb/query.go:69 drops |
| `AggregateView.AggregatesReadTheMap` | blockdb/migrate.go:250-266 | neither LEFT JOINs nor grouping distort the aggregates over a group: greatest saved height, zero if none, and the number of transactions a reader gets |
| `RecentTests.OrderedIsSorted` | blockdb/query.go:70 | all chains are listed strictly newest test case first and, within one, in byte order of the chain ID |
| `RecentTests.BeforeExactly` | blockdb/query.go:70 | the sorting test is: a newer test case, or the same and a chain ID that is smaller in byte order |
| `RecentTests.RecentTestCases` | blockdb/query.go:65-102 | every row is faithful to its chain; rows are newest test case first, then in byte order of the chain ID; a chain is missing only because the limit is used up by chains that precede it in this order |
| `Collectors.Collector.SaveTxsForHeight` | blockdb/collect.go:105-115 | no error exactly when finder, schema and database all answer; then the answer is saved at that height, else nothing changed |
| `Collectors.Collector.Collect` | blockdb/collect.go:70-95 | under any pattern of find and save failures the chain holds exactly the answers of the ticks whose save went through, at heights 1 to height - 1, readers get them in order, and the other chains hold exactly what they held |
| `Collectors.SavedByTicks` | blockdb/collect.go:81-92 | each saved block is the finder's answer at a tick of its own, in the order of the ticks |
| `Collectors.ReadBack` | blockdb/collect.go:68-69 | a chain that holds n consecutive blocks reads back as their transactions, with chain height n |
| `Collectors.StepKeepsInvariant` | blockdb/sql.go:28-30 | with one connection, each statement, commit, rollback, find or stop of any collector keeps every collector's history exact |
| `Collectors.RunKeepsInvariant` | blockdb/collect.go:70-115 | so does every run of any number of collectors |
| `Collectors.SavedWasFound` | blockdb/collect.go:105-113 | everything saved was an answer of the finder for that chain and height |
| `Collectors.HistoryOnlyGrows` | blockdb/collect.go:81-92 | what was committed is never altered or lost later |
| `Collectors.FailureKeepsHeight` | blockdb/collect.go:82-92 | a failed find or save changes nothing committed and leaves its collector polling the same height; only its own commit moves on, by one |
| `Collectors.RefusalKeepsHeight` | blockdb/collect.go:110-113 | so does a statement the schema refuses |
| `Collectors.CollectedHistoryIsExact` | blockdb/collect.go:68-95 | in every reachable state a reader sees exactly the committed answers of each chain, nothing skipped, doubled, half-written or foreign, even while others are mid-transaction |
| `PortReservation.StepKeepsLocks` | dockerutil/ports.go:28-29 | one writer or many readers: the mutex state follows the goroutines through every step |
| `PortReservation.StepKeepsInv` | dockerutil/container_lifecycle.go:54-143 | every step keeps listeners, release windows and bindings apart and the kernel's view accounted for |
| `PortReservation.RunKeepsInv` | dockerutil/container_lifecycle.go:36-143 | so does every interleaving of any number of lifecycles |
| `PortReservation.AllocationNeverSteals` | dockerutil/container_lifecycle.go:101-104 | in all runs, an allocated port is not one another container listens on, is bound to, or has just released for its own start |
| `PortRuns.StepKeepsSettled` | dockerutil/container_lifecycle.go:54-143 | only a contested start can put a port at stake for two lifecycles |
| `PortRuns.ClaimsAreExclusive` | dockerutil/container_lifecycle.go:54-113 | in every run of uncontested starts each host port is claimed by at most one container |
| `PortRuns.WindowsAreUnbound` | dockerutil/container_lifecycle.go:101-109 | in such runs no container is bound to a port inside a release window |
| `PortRuns.StartFindsItsPortsFree` | dockerutil/container_lifecycle.go:106-109 | when a starter hands over to docker, all its promised ports are free, or bound by its own running container |
| `PortRuns.ContestedGoesWrong` | dockerutil/container_lifecycle.go:100-109 | a contested start leads to two claimants or a refused start, at once or by the container's own start |
| `PortRuns.ContestedRunGoesWrong` | dockerutil/container_lifecycle.go:100-109 | so every reachable state with a contested start has an unsafe continuation of one or two steps |
| `PortRuns.StartIsSafeExactly` | dockerutil/container_lifecycle.go:100-113 | a start is safe if and only if it is uncontested |
| `PortRuns.SafeExactlyUncontested` | dockerutil/container_lifecycle.go:100-113 | over whole runs: all starts are safe if and only if none is contested |
| `PortRuns.ReservedRunIsUncontested` | dockerutil/container_lifecycle.go:59-107 | runs whose starts all hold their reservation are uncontested, and released plus held ports are exactly the promised bindings |
| `PortRuns.RestartCanSteal` | dockerutil/container_lifecycle.go:100-109 | a run of reserved starts after which a restart is contested, and how it goes wrong |
| `PortRuns.LeaksExactly` | dockerutil/container_lifecycle.go:59 | over all runs, a listener is lost if and only if a new reservation was stored over an unused one |
| `PortRuns.CleanRunLeaksNothing` | dockerutil/container_lifecycle.go:59 | no listener is lost when no container is created over an unused reservation |
| `PortRuns.EveryListenerHasOneOwner` | dockerutil/container_lifecycle.go:59-96 | in such runs every open listener belongs to exactly one lifecycle; an owner between calls is not running, and holds exactly its container's bindings if that exists |
| `PortRuns.IdleListenersAreReservations` | dockerutil/container_lifecycle.go:59-96 | if no container is removed over open listeners either, every listener between calls belongs to exactly one created, unstarted container |
| `PortRuns.TidyExactly` | dockerutil/container_lifecycle.go:54-143 | in runs without a repeated create, listeners outside of creation are always those of a created container if and only if no container is removed over open listeners |
| `PortRuns.RemovalClosesNothing` | dockerutil/container_lifecycle.go:134-143 | removal drops the container and closes none of its listeners |
| `PortRuns.RemovedKeepsListeners` | dockerutil/container_lifecycle.go:134-143 | for every port, a run after which it is open although every call has returned and no container exists |
| `ContainerLifecycles.Host.CloseAll` | dockerutil/ports.go:15-19 | exactly the given listeners are closed |
| `ContainerLifecycles.Host.OpenListenerOnFreePort` | dockerutil/ports.go:22-36 | a port not in use before, or nothing opened; the lock is released either way |
| `ContainerLifecycles.Host.GeneratePortBindings` | dockerutil/ports.go:57-72 | success exactly when the kernel's answers are free ports and different; then one binding per requested port with distinct host ports, listeners on the offered ports in order; a failure leaves none of them open |
| `ContainerLifecycles.ContainerLifecycle.CreateContainer` | dockerutil/container_lifecycle.go:36-98 | success exactly when the ports are granted and docker answers with an id; then a listener is held for each binding; every failure leaves the host's listeners as before |
| `ContainerLifecycles.ContainerLifecycle.StartContainer` | dockerutil/container_lifecycle.go:100-116 | its listeners are closed, the lock is free again; docker is given the bindings the container was created with, starts it exactly when they are free or it runs already, and only a first start binds them |
| `ContainerLifecycles.CreateThenStart` | dockerutil/container_lifecycle.go:36-116 | created exactly when ports are granted and docker answers; then started, with every promised port bound and no listener left |
| `Base64.DecodeEncode` | dymension/utils.go:78-86 | decoding an encoded byte string gives it back, for all byte strings |
| `Base64.LetterIs` | dymension/utils.go:12 | the standard alphabet, A-Z a-z 0-9 + /, and its inverse |
| `Base64.SextetsAreBits` | dymension/utils.go:12 | three bytes and four letters are the same 24 bits |
| `Base64.EncodeKnown` | dymension/utils.go:12 | the RFC's vectors for "f", "fo" and "foo", padding included |
| `Base64.LineBreaksIgnored` | dymension/utils.go:12 | carriage returns and line feeds, in any number and order, are skipped wherever they stand |
| `Base64.ForeignCharacterInvalid` | dymension/utils.go:11-14 | a text with a character outside the alphabet is not base64 |
| `Base64.BadLengthInvalid` | dymension/utils.go:11-14 | nor is one whose length, line breaks aside, is no multiple of four |
| `Events.MapToEibcEventPlainStr` | dymension/utils.go:33-67 | fails exactly when some is_fulfilled value is neither a true nor a false text; otherwise every field holds the value of the last attribute that fills it |
| `Events.MapToEibcEventBase64` | dymension/utils.go:69-107 | fails exactly when a key or value does not decode or a decoded boolean is bad; otherwise every field holds the last decoded value for it |
| `Events.MapToEibcEvent` | dymension/utils.go:16-31 | the first key decides whether attributes are decoded; no attributes is an error; the record's fields and the failures are those of the attributes so read |
| `Events.PlainReadingFills` | dymension/utils.go:36-66 | field by field: order_id, price, fee, packet_status and packet_key by their own last value, the rollapp ID by the last of rollapp_id and recipient, recipient never, the boolean and status by their tables |
| `Events.DecodedReadingIsPlain` | dymension/utils.go:72-106 | reading with decoding is reading the decoded attributes |
| `Events.EncodedIsReadPlainly` | dymension/utils.go:16-31 | an encoded event maps to the plain reading of the event, whatever it holds |
| `Events.EncodingIsTransparent` | dymension/utils.go:22-30 | both forms map alike when the first key is not itself base64 text |
| `Events.RecognisedEventsMapAlike` | dymension/utils.go:37-58 | in particular for every event that starts with one of the nine names |
| `Events.GuessGoesWrong` | dymension/utils.go:22-27 | for every first key that is base64 text there is an event whose forms map differently |
| `Events.KeyIsTransparentExactly` | dymension/utils.go:16-31 | all events that start with a key map alike in both forms if and only if the key is not base64 text |
| `Events.AttributeValue` | cosmos/events.go:12-37 | the first answering attribute in event, then attribute order |
| `Events.EncodedLookup` | cosmos/events.go:22-33 | on encoded events this is the plain lookup, unless the sought key is base64 text |
| `Events.LookupIgnoresEncoding` | cosmos/events.go:9-37 | one answer for both encodings, when also no plain key decodes to the sought one |
| `Events.LookupIgnoresEncodingExactly` | cosmos/events.go:9-37 | for keys that are not base64 text: one answer for both encodings if and only if no decodable disguise comes before the first literal match, or the first has an equal value |
| `Events.SoughtKeyInvalid` | cosmos/node.go:934-941 | the keys the repository looks up are not base64 text |
| `Events.DisguisedKeyIsAnswered` | cosmos/events.go:27-32 | without the second condition the answers differ |
| `Monikers.Fnv32` | cosmos/node.go:610-611 | the loop over the bytes computes the hash that the next two rows characterise |
| `Monikers.FnvStep` | cosmos/node.go:610-611 | FNV-1 multiplies first: above the low eight bits a step is the product modulo 2^32, in them the exclusive or of product and byte |
| `Monikers.FnvKnown` | cosmos/node.go:610-611 | the published values for the empty text and "a" |
| `Monikers.MixInjective` | cosmos/node.go:610-611 | an FNV-1 step is injective in the state for a fixed byte, and in the byte for a fixed state |
| `Monikers.OneByteChangesFnv` | cosmos/node.go:606-609 | equally long texts that differ in one byte never hash alike |
| `Numerals.FormatInjective` | cosmos/node.go:612 | numbers that print alike are equal, in every base |
| `Numerals.FormatReadsBack` | cosmos/node.go:612 | the printed digits 0-9, a-z read back as the number, and there is no leading zero |
| `Monikers.SevenDigits` | cosmos/node.go:605-612 | a 32-bit number prints in one to seven base-36 digits |
| `Monikers.LastDash` | cosmos/node.go:612 | the suffix can be read back from behind the last dash |
| `Monikers.CondenseMoniker` | cosmos/node.go:600-620 | identity up to 70 bytes, 68 or 69 bytes beyond |
| `Monikers.CondenseFits` | cosmos/node.go:596-599 | the result fits the limit and is a fixed point of condensing |
| `Monikers.CondenseKeepsEnds` | cosmos/node.go:614-619 | equally long head and tail survive, without overlapping or running out of range |
| `Monikers.CondensedReadsBack` | cosmos/node.go:612-619 | between the ends stand three dots; behind them a dash and the hash in base 36 |
| `Monikers.CondenseAlike` | cosmos/node.go:610-619 | two long monikers collide if and only if they hash alike and agree on both kept ends |
| `Monikers.OneByteStaysVisible` | cosmos/node.go:598-599 | equally long monikers that differ in one byte stay different |
| `Monikers.EndsStayVisible` | cosmos/node.go:619 | so do long ones that differ in their first or last 29 bytes |
| `Monikers.NameReads` | cosmos/node.go:180-193 | two names written out, a rollapp validator's and a full node's |
| `Monikers.NodesGetDistinctMonikers` | cosmos/node.go:180-193 | nodes of one chain and kind with one-digit indices get different monikers |
| `TomlMerge.MergePathByPath` | testutil/toml.go:20-43 | path by path: overridden leaves take the new value, untouched paths keep theirs, opened paths are sections |
| `TomlMerge.MergeIsIdempotent` | testutil/toml.go:20-43 | merging again is possible and changes nothing |
| `TomlMerge.MergeableExactly` | testutil/toml.go:23-32 | the merge returns without error if and only if every section it opens exists |
| `TomlMerge.FreshSectionFails` | testutil/toml.go:24-32 | one new, empty section makes it fail |
| `TomlMerge.MergeEntry` | testutil/toml.go:22-40 | one key: set, descend or refuse |
| `TomlMerge.RecursiveModifyToml` | testutil/toml.go:20-43 | in place and in any key order at every depth: error or not, and the resulting tree, depend on the contents alone |
| `BlockPolling.PacketPoll.PushSearched` | testutil/poll_for_state.go:135-137 | one more record at the end |
| `BlockPolling.PacketPoll.Poll` | testutil/poll_for_state.go:68-80 | the first match of a block, and that the packets up to it, or all of a block without one, are recorded |
| `BlockPolling.PacketPoll.DoPoll` | testutil/poll_for_state.go:21-53 | the outcome and the heights polled, for any sequence of observed heights; a failed search records all packets of all blocks from start to maximum, a successful one those of the blocks before and of the match's block up to the match |
| `BlockPolling.ProbesInOrder` | testutil/poll_for_state.go:31-52 | heights are polled one by one from the start, each once, none above the maximum |
| `BlockPolling.ProbesOnlyProduced` | testutil/poll_for_state.go:38-42 | every poll has its own observation, made just before, and its height is not above the height observed |
| `BlockPolling.ProbeAnswers` | testutil/poll_for_state.go:42-52 | every poll but a successful last one failed, and a failed search polled up to the maximum |
| `BlockPolling.PollIsLeast` | testutil/poll_for_state.go:42-52 | success is the least height that answers; failure is the last height's error after all failed |
| `BlockPolling.PollTerminates` | testutil/poll_for_state.go:31-40 | enough observations at the maximum height end the loop |
| `BlockPolling.SearchIsLeast` | testutil/poll_for_state.go:61-88 | a search returns the match of least height and, in that block, least position |
| `Finalization.WaitUntilRollappHeightIsFinalized` | cosmos/hub/dym_hub/dym_hub.go:671-711 | at most ceil(timeout/2) + 1 queries; true exactly when the last queried state held the height, and no queried state that holds it is passed over; a further query only while the time allows; each error has its cause |
| `Finalization.Contains` | cosmos/hub/dym_hub/dym_hub.go:695-703 | unparsable heights are skipped, any other is compared |
| `SetupBuilder.Setup.AddChain` | setup.go:107-148 | panics exactly on nil, or a chain, registered ID or name already present; else registers it; IDs and names stay distinct |
| `SetupBuilder.Setup.AddRelayer` | setup.go:151-167 | the same for relayers and their names |
| `SetupBuilder.Setup.AddLink` | setup.go:195-229 | panics exactly on unknown or equal ends, an unknown relayer or a taken path; links always join two added chains |
| `SetupBuilder.RollAppIDs` | setup.go:119-123 | prefixed IDs of rollapps agree exactly when the chain IDs do |
| `SetupBuilder.SetupIDIs` | setup.go:116-123 | exactly the kinds "rollapp" and "rollapp-.." are registered under "ra_" and the chain ID, all others under the chain ID |
| `SetupBuilder.HubAndRollApp` | setup.go:119-123 | a hub and a rollapp of one chain ID do not clash in their IDs |
| `SetupBuilder.Setup.AddRollUp` | setup.go:82-101 | panics exactly when the hub is none or some chain would clash; else the hub lists the rollapps in order and no two of them clash |
| `SetupBuilder.NoClashesDistinct` | setup.go:116-123 | rollapps that do not clash have distinct chain IDs |
| `SetupBuilder.RollUpThenRemove` | setup.go:82-101 | rollapps that came in through AddRollUp are removed exactly, without a panic |
| `SetupBuilder.Setup.RelayerChains` | setup.go:503-528 | duplicate-free lists of exactly each relayer's link ends, for any iteration order |
| `SetupBuilder.ToSlice` | setup.go:520-523 | every element of the set once |
| `SetupBuilder.Setup.GenerateRelayerWallets` | setup.go:422-442 | panics exactly on a second call; success fills exactly the linked pairs, an error leaves genuine entries only |
| `SetupBuilder.AccountNamesDistinct` | setup.go:431-432 | two relayers never share an account name on one chain |
| `SetupBuilder.AccountNameIs` | setup.go:431 | relayer name, dash, registered ID |
| `HubRollApps.DymHub.SetRollApp` | cosmos/hub/dym_hub/dym_hub.go:468-470 | the rollapp is appended, in place or in a larger array |
| `HubRollApps.DymHub.ShiftLeft` | cosmos/hub/dym_hub/dym_hub.go:479 | the in-place append: what every cell of the shared array holds afterwards |
| `HubRollApps.DymHub.RemoveRollApp` | cosmos/hub/dym_hub/dym_hub.go:476-482 | when the loop panics, and otherwise what the list has become |
| `SliceRemoval.SweepOutcome` | cosmos/hub/dym_hub/dym_hub.go:477-481 | the loop over the shifting array, with its stale cells, against a one-pass description on the list it started with |
| `SliceRemoval.SweptIsWithout` | cosmos/hub/dym_hub/dym_hub.go:477-479 | skipping the shifted-in neighbour is harmless exactly when no two matches are neighbours |
| `SliceRemoval.RemovalIsExact` | cosmos/hub/dym_hub/dym_hub.go:476-482 | removal is exact if and only if no matches are neighbours and a matching last one is alone |
| `SliceRemoval.TwinsGoWrong` | cosmos/hub/dym_hub/dym_hub.go:476-482 | inputs for which it is not |
| `SliceRemoval.DistinctIDsRemoveExactly` | cosmos/hub/dym_hub/dym_hub.go:476-482 | with distinct IDs it always is, and they stay distinct |
| `SliceRemoval.NothingToRemove` | cosmos/hub/dym_hub/dym_hub.go:478 | without a match the list stays as it is |
| `Reporting.RunKeepsInv` | testreporter/reporter.go:32-61 | in every interleaving, written then buffered messages are the sent ones in send order, and the buffer is never over 256 |
| `Reporting.SentIsExpected` | testreporter/reporter.go:32-71 | in every run: BeginSuite, the early reports, FinishSuite once Close sent it, then late reports |
| `Reporting.FinishIsLastExactly` | testreporter/reporter.go:65-70 | once sent, FinishSuite is the last message if and only if nothing was reported before the channel closed |
| `Reporting.ClosedMeansWritten` | testreporter/reporter.go:63-71 | when Close returns, everything is written, BeginSuite first; FinishSuite is last behind every report if and only if none came late |
| `Reporting.CloseCanReturn` | testreporter/reporter.go:65-71 | once Close waits, the writer alone brings it to return |
| `Reporting.EveryScheduleReturns` | testreporter/reporter.go:50-71 | once Close waits, every schedule ends after the same number of steps, with Close returned and everything written, and never gets stuck before |
| `Reporting.SomeoneCanMove` | testreporter/reporter.go:32-71 | a full buffer always lets the writer receive, and from construction or Close to its end someone other than a reporter can move |
| `Reporting.LateReportIsWrittenLast` | testreporter/reporter.go:65-71 | a report during Close, with room in the buffer, is written behind FinishSuite, in every such run |
| `Reporting.LateReportIsLast` | testreporter/reporter.go:65-71 | such a run to the return of Close exists |
| `Highlighting.LeftmostIsScan` | blockdb/tui/presenter/highlight.go:35 | disjoint leftmost matches with nothing between them are one definite list, the outcome of a left-to-right scan |
| `Highlighting.NothingMissed` | blockdb/tui/presenter/highlight.go:35 | every occurrence of the term is wrapped or overlaps a wrapped one |
| `Highlighting.StrippedIsText` | blockdb/tui/presenter/highlight.go:35-41 | wrappers of any text and length can be cut out again, given where the hits are |
| `Highlighting.TrimTrims` | blockdb/tui/presenter/highlight.go:16 | the term is a slice of the search term with no space at either end and only space around it |
| `Highlighting.DecoratedFrames` | blockdb/tui/presenter/highlight.go:36-40 | hit k stands in the frame ["k"] .. [""], at its place shifted by the frames before |
| `Highlighting.UndecoratedIsText` | blockdb/tui/presenter/highlight.go:35-42 | dropping the inserted wrappers from the result gives the text back |
| `Highlighting.RegionIDsDistinct` | blockdb/tui/presenter/highlight.go:36-37 | region ids are pairwise distinct |
| `Highlighting.Highlight.HitsAreLeftmost` | blockdb/tui/presenter/highlight.go:35 | what gets wrapped is disjoint, in order, and no match begins in a gap |
| `Highlighting.Highlight.Text` | blockdb/tui/presenter/highlight.go:27-43 | the leftmost matches stand in frames that carry ids 0 to n - 1 in order, everything between is the text's, dropping the frames restores the text, and an empty term changes nothing |

## Left out

- The SQLite engine, SQL text, JSON functions and the view of cosmos messages; timestamps and raw row ids are no part of the represented content, and a row's insertion time is not modelled.
- Foreign keys hold because `PRAGMA foreign_keys` is set on the single pooled connection (blockdb/migrate.go:52, blockdb/sql.go:30); other processes with the same file open, nullable foreign-key columns and running out of ids are not modelled.
- A COMMIT that fails is taken to leave the tables unchanged.
- `SaveBlock`'s single-flight wrapper and `transactions.Hash`: the key hashes only concatenated data, so two different blocks can share it; calls go straight to `saveBlock`.
- BlockDb.Chain.SaveBlock: the three nested loops are one method each.
- BlockQuery.Query.Transactions: ORDER BY is a stable insertion by height over rows in id order; errors while reading rows are not modelled.
- RecentTests.RecentTestCases: the conversion of the creation time to local time, and errors while reading rows, are not modelled.
- PortReservation: ports used by other processes appear only as ports the kernel does not offer; docker is assumed to refuse a second container of a name that exists; images are assumed to expose no ports beyond the requested ones, since `PublishAllPorts` would have docker pick host ports for those outside the reservation (dockerutil/container_lifecycle.go:78); a process crash is not modelled.
- ContainerLifecycles: the methods are those of one goroutine; all interleavings are the subject of PortReservation.
- Monikers.NodesGetDistinctMonikers: `SanitizeContainerName` is not modelled; the test name is any byte string.
- TomlMerge.RecursiveModifyToml: sections are assumed not to be shared within a decoded file, as decoding produces them; modifications with nested maps of a type other than `Toml`, on which the source panics, and the partial tree left by an error are not modelled.
- BlockPolling.PollTerminates: the five-second sleeps are not modelled, only the sequence of observed heights.
- Finalization.WaitUntilRollappHeightIsFinalized: the timer's channel is a free choice in every turn, and durations do not overflow.
- SetupBuilder.Setup.AddChain: additional genesis wallets are not modelled, nor is `Build`.
- HubRollApps.DymHub.SetRollApp: the growth factor of a Go slice is not modelled, and the slice is not shared with other slices.
- Reporting: the content of messages, JSON encoding, the panic on an encoding error and the panic of a send on the closed channel are not modelled.
- Highlighting.Highlight.Text: the regular expression is matched as a literal up to an arbitrary folding of code points; invalid UTF-8 is not modelled.
- `WaitUntilEpochEnds`, `GetTransferChannel`, `chainSet.Start`, configuration merging, packet validators and `CondenseHostName` would add easy members, or state what does not hold as written.
- Docker, RPC, command execution, file transfer, key generation, relayer commands and the terminal UI.

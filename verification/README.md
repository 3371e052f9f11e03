# A verified model of the peer

This project models the parts of a Hyperledger Fabric 1.0 peer, with its two system chaincodes for
customers and joint approval, whose correctness is a matter of whole runs, and proves what they
are for.

| file | models |
|---|---|
| `KvLedger.dfy` | one ledger: commit to three stores, and recovery of the databases that lag |
| `LedgerProvider.dfy` | creation of ledgers under a persistent flag, and the id store |
| `Mvcc.dfy` | validation of a block against the state database, and what committing it does |
| `Calculations.dfy` | the `__CAL_` writes of a block: what they leave in the state, and when replaying loses it |
| `CommittedWrites.dfy` | what a block leaves in the state, read off the places of its writes |
| `StateValidator.dfy` | the validator's loops and the iterator that merges database and batch |
| `Observations.dfy` | what a chaincode observes, what is recorded of it, and which states give it the same |
| `Serializability.dfy` | exactly when a valid transaction would see the same at its place in the chain |
| `RecoveredState.dfy` | runs with deaths and recoveries, together with what the blocks do |
| `ShimProtocol.dfy` | requests, responses and query iterators between shim and peer |
| `QueryPaging.dfy` | query results in pages of 100 and the shim's iterator over them |
| `BroadcastClient.dfy` | the reconnecting client of the ordering service and concurrent Close |
| `DeliverBlocks.dfy` | the loop that hands blocks to gossip, its counters and back-off |
| `ContainerLocks.dfy` | reference-counted container locks under any interleaving |
| `UpgradeConflicts.dfy` | codes for transactions that conflict with upgrades in their block |
| `Voting.dfy`, `Approvals.dfy` | joint approval: thresholds, voting, lists and execution |
| `CustomerLists.dfy` | customer records and the lists that mirror them |
| `CustomerRights.dfy` | who may register and change customers, what the records hold, and queries |
| `RList.dfy` | the named lists of the stub and the pages cut from them |
| `CompositeKeys.dfy` | composite keys and the bounds of range scans |
| `MockStub.dfy` | the mock stub's linked key list and its range iterator |
| `Lex.dfy`, `Common.dfy` | the order of keys, and what several modules share |

`dafny verify dfyconfig.toml` checks everything.

How concurrency and failure are modelled. A death of the process is a number of store writes it
lives through: every theorem about the ledger holds for every such number, so for a death before
any write, also during recovery; a restart may also find only a prefix of what a database had
received, since databases are written without sync. The shim protocol, the broadcast client and
the container locks are state machines whose steps are the points where the source takes a lock,
sends or receives; their theorems are about every sequence of steps. Map iteration is modelled by
picking any element, so a method that verifies does not depend on the order. Code that changes
state in loops is a method or a class, proved against a specification function, and the theorems
are about that function.

What the network, the ledger or a called chaincode answers, and whether a signature verifies or a
message parses, are parameters, so the theorems hold for every answer.

## Where the code differs from its documentation

- The comment on partial composite keys (`core/chaincode/shim/chaincode.go:533`) says the partial
  key itself is not among the results. It is (`CompositeKeys.PartialScan`).
- Veto type 2 is described as two thirds or more (`core/scc/rbcapproval/rbcapproval.go:63`). The
  code passes an item with ceil(n / 3) votes (`Voting.BelowTwoThirds`), and its verdict depends on
  the order of the votes (`Voting.TypeTwoOrder`).
- When the super users cannot be counted, a new approval passes at once (`Approvals.PassedAtOnce`).
- Recovery replays blocks without validation, and calculations (`__CAL_` writes) happen only in
  validation, so a block replayed after a crash loses them, exactly under the condition of
  `Calculations.ReplayAgreesIff`. A refused transaction can leave its calculations behind
  (`Calculations.RefusedTxIsQuietIff`), and a calculation escapes the read check
  (`Serializability.CalculatedReadPasses`).
- A ledger with the empty id is never recovered (`LedgerProvider.EmptyIdIsNotRecovered`), and the
  list of ledgers does not end while the flag is set (`LedgerProvider.ListEndsIffFlagClear`).
- A page that cannot be fetched costs the last row of the page before it, and only then
  "Invalid iterator state" can be reached (`QueryPaging.CommonIterator.NextResult`).
- A modification that changes a customer's type and status leaves a stale entry in the list of the
  old status (`CustomerLists.StaleEntry`).

## Model

| member | source | states |
|---|---|---|
| `KvLedger.EveryRunRecovers` | core/ledger/kvledger/kv_ledger.go:71-131 | over every run of commits and restarts, with the peer dying before any store write and again during recovery, a peer that is up has applied every stored block to each database exactly once and in order; stored blocks are never lost; a restart that is not cut short succeeds |
| `KvLedger.RecoverySafe` | core/ledger/kvledger/kv_ledger.go:71-131 | recovery cut short at any write can be started again; recovery that ends leaves both databases at the whole chain; it ends within two writes a block |
| `KvLedger.RecoveryReplays` | core/ledger/kvledger/kv_ledger.go:71-131 | recovery, cut short or not, keeps what a database has seen and only adds replays; when it ends it has added exactly the blocks the database lacked, in order |
| `KvLedger.CatchUpSafe` | core/ledger/kvledger/kv_ledger.go:98-113 | two databases that lag differently: the one behind is replayed alone up to the other, then both together, and both end at the last block |
| `KvLedger.ReplayAlone` | core/ledger/kvledger/kv_ledger.go:117-131 | replaying a range into one database appends exactly these blocks and leaves the other alone, whenever the peer dies |
| `KvLedger.ReplayTogether` | core/ledger/kvledger/kv_ledger.go:117-131 | the same for two databases that take turns block by block |
| `KvLedger.CommitSafe` | core/ledger/kvledger/kv_ledger.go:211-241 | a commit cut short before any of its three writes leaves stores that recovery accepts; it is complete exactly after three writes, and the block is stored exactly after one |
| `KvLedger.CommitReaches` | core/ledger/kvledger/kv_ledger.go:211-241 | for every number of writes the peer lives through: the block store gets the block with the first, the state database with the second and the history database with the third, each as validation prepared it and not as a replay |
| `KvLedger.StoredAreAccepted` | core/ledger/kvledger/kv_ledger.go:211-241 | over every run the block store holds exactly the blocks that were accepted while the peer was up and lived to store them, in order |
| `KvLedger.Ledger.RecoverDBs` | core/ledger/kvledger/kv_ledger.go:71-113 | the code with its recoverers and their swap computes the specified recovery, keeps the stores recoverable, and ends caught up |
| `KvLedger.LostBlockReplayed` | core/ledger/kvledger/kv_ledger.go:71-131 | a block that was stored and reached neither database is replayed into both |
| `KvLedger.Ledger.RecommitBoth` | core/ledger/kvledger/kv_ledger.go:103-112 | the code for two lagging databases is the specified catch-up, and its bound does not go below zero |
| `KvLedger.Ledger.RecommitLostBlocks` | core/ledger/kvledger/kv_ledger.go:117-131 | the loop over block numbers is the specified replay, for every number of writes the peer lives through |
| `KvLedger.Ledger.RecommitBlock` | core/ledger/kvledger/kv_ledger.go:120-129 | one block goes to each recoverable in turn until the peer dies |
| `KvLedger.Ledger.CommitLostBlock` | core/ledger/kvledger/txmgmt/txmgr/lockbasedtxmgr/lockbased_txmgr.go:123-133 | the block and the savepoint with its number reach that database and no other, in one write |
| `KvLedger.Ledger.Commit` | core/ledger/kvledger/kv_ledger.go:211-241 | a refused block changes nothing; an accepted one goes to the block store, the state database and the history database in this order; what remains is always recoverable |
| `LedgerProvider.EveryRun` | core/ledger/kvledger/kv_ledger_provider.go:112-140 | over every run of creations, failures, appends, deaths and restarts the flag names an unlisted ledger of height 0 or 1, a listed ledger has height at least 1, and while the peer is up a ledger with a non-empty id is listed exactly if its genesis block is committed |
| `LedgerProvider.RecoverySettles` | core/ledger/kvledger/kv_ledger_provider.go:206-237 | recovery never reaches the data-inconsistency panic nor an id already listed; when it ends, listed means genesis committed, the flag is clear unless it named the empty id, and no block has changed |
| `LedgerProvider.Resolved` | core/ledger/kvledger/kv_ledger_provider.go:218-236 | the flagged ledger has height 0 or 1, and either ending of recovery restores the invariant |
| `LedgerProvider.CreateSafe` | core/ledger/kvledger/kv_ledger_provider.go:112-140 | a creation cut short at any write, or failing to open or to commit, leaves a state recovery accepts |
| `LedgerProvider.BuildSafe` | core/ledger/kvledger/kv_ledger_provider.go:127-139 | the same for the part of a creation after the flag is set |
| `LedgerProvider.CreationSucceeds` | core/ledger/kvledger/kv_ledger_provider.go:112-140 | a creation that is not cut short lists the ledger with exactly its genesis block and clears the flag |
| `LedgerProvider.CreationEnds` | core/ledger/kvledger/kv_ledger_provider.go:112-140 | how a creation ends that the peer lives through, for every id and outcome: an id already listed is refused and nothing changes; a ledger that fails to open leaves the flag clear; one whose genesis block is refused, or that has a block already, leaves it set and no new block; otherwise it is listed with its genesis block |
| `LedgerProvider.AppendStores` | core/ledger/kvledger/kv_ledger.go:211-241 | an open ledger takes an accepted block at its end, and a refused one not at all; other ledgers, the flag and the ids stay |
| `LedgerProvider.OpenCatchesUp` | core/ledger/kvledger/kv_ledger_provider.go:142-182 | opening a listed ledger brings its databases to the end of its chain, and changes no block and no other ledger |
| `LedgerProvider.RestartNeverPanics` | core/ledger/kvledger/kv_ledger_provider.go:206-237 | after every run, whatever the databases have kept and however far a restart gets, it never meets the data-inconsistency panic or an id already listed |
| `LedgerProvider.FlagClear` | core/ledger/kvledger/kv_ledger_provider.go:206-237 | over every run a restart that succeeds leaves the flag clear exactly if it did not name the empty id, which it never does in runs that do not create that ledger |
| `LedgerProvider.CreatedIsListed` | core/ledger/kvledger/kv_ledger_provider.go:287-304 | a creation that succeeds adds exactly its id and clears the flag |
| `LedgerProvider.EmptyIdIsNotRecovered` | core/ledger/kvledger/kv_ledger_provider.go:210-213 | the empty id is the exception: a creation cut short leaves its flag set and its genesis block unlisted even after a restart |
| `LedgerProvider.StoreWrites` | core/ledger/kvledger/kv_ledger_provider.go:271-304 | what the three writes of the id store do to its flag and to the ids it lists, through the key encoding |
| `LedgerProvider.ListEndsIffFlagClear` | core/ledger/kvledger/kv_ledger_provider.go:316-329 | the listing loop ends exactly when the flag key is not in the store |
| `LedgerProvider.Provider.Create` | core/ledger/kvledger/kv_ledger_provider.go:112-140 | the code computes the specified creation, with all its failures and deaths |
| `LedgerProvider.Provider.BuildLedger` | core/ledger/kvledger/kv_ledger_provider.go:127-139 | open, commit the genesis block, then add the id and drop the flag in one batch |
| `LedgerProvider.Provider.SetFlag` | core/ledger/kvledger/kv_ledger_provider.go:271-273 | the write to the store sets the flag and leaves the ids and the ledgers |
| `LedgerProvider.Provider.UnsetFlag` | core/ledger/kvledger/kv_ledger_provider.go:275-277 | the write to the store clears the flag and leaves the ids and the ledgers |
| `LedgerProvider.Provider.CreateLedgerID` | core/ledger/kvledger/kv_ledger_provider.go:287-304 | one batch adds the id to those listed and clears the flag |
| `LedgerProvider.Provider.LedgerIDExists` | core/ledger/kvledger/kv_ledger_provider.go:306-314 | true exactly for a listed id |
| `LedgerProvider.Provider.OpenInternal` | core/ledger/kvledger/kv_ledger_provider.go:156-182 | opening runs recovery on the ledger's stores; what it wrote stays written when the peer dies |
| `LedgerProvider.Provider.RecoverUnderConstructionLedger` | core/ledger/kvledger/kv_ledger_provider.go:206-237 | the code computes the specified recovery, and success settles which ledgers are listed and clears a flag that is not empty |
| `LedgerProvider.Provider.GetAllLedgerIds` | core/ledger/kvledger/kv_ledger_provider.go:316-329 | with the flag clear, so after each successful creation and after recovery, the loop returns exactly the created ids, in order |
| `Mvcc.FlagsFinal` | core/ledger/kvledger/txmgmt/validator/statebasedval/state_based_validator.go:87-169 | the flag a transaction gets in its turn is final, and those not yet reached are as they came |
| `Mvcc.ReadCheckExact` | core/ledger/kvledger/txmgmt/validator/statebasedval/state_based_validator.go:544-575 | the read check accepts exactly the current reads whose key no earlier transaction of the block has deleted |
| `Mvcc.DeleteOfAbsentKeyConflicts` | core/ledger/kvledger/txmgmt/validator/statebasedval/state_based_validator.go:556-575 | a current read that the check refuses: the key was absent and an earlier transaction deleted it |
| `Mvcc.ScanFinds` | core/ledger/kvledger/txmgmt/statedb/stateleveldb/stateleveldb.go:118-127 | a scan returns exactly the keys of the namespace in the range, in order |
| `Calculations.CheckTxCalculates` | core/ledger/kvledger/txmgmt/validator/statebasedval/state_based_validator.go:287-379 | what the checks of any transaction leave in the batch, refused or not: exactly the keys with a calculation in a namespace up to which they pass become calculations and stop being updates; it stays valid exactly if all namespaces pass |
| `Calculations.QuietIffNoCalculation` | core/ledger/kvledger/txmgmt/validator/statebasedval/state_based_validator.go:287-379 | the checks leave the batch as it was exactly if the namespaces that pass have no calculation but repeated ones that do not change the value |
| `Calculations.RefusedTxIsQuietIff` | core/ledger/kvledger/txmgmt/validator/statebasedval/state_based_validator.go:287-319 | in any block, a refused transaction leaves no trace exactly under that condition on the namespaces before the one that failed |
| `Calculations.RefusedTxStillCalculates` | core/ledger/kvledger/txmgmt/validator/statebasedval/state_based_validator.go:287-379 | in any block, a calculation of a transaction, refused or not, is part of the entry stored for its key unless a valid transaction from there on writes the key |
| `Calculations.CalsExact` | core/ledger/kvledger/txmgmt/validator/statebasedval/state_based_validator.go:321-379 | at every point of any block the pending calculations are exactly the keys some transaction not invalid before calculates on in a namespace that passes, and each holds all its operations in order, applied to what the first one found, with the version of that |
| `Calculations.UpdatesExact` | core/ledger/kvledger/txmgmt/validator/statebasedval/state_based_validator.go:269-285 | at every point of any block the pending updates are exactly the keys a valid transaction has written and none after it has calculated on |
| `Calculations.LiveIff` | core/ledger/kvledger/txmgmt/validator/statebasedval/state_based_validator.go:491-508 | which calculations reach the state, read off the block: those on a key that no valid transaction writes at or after the last calculation |
| `Calculations.StartFound` | core/ledger/kvledger/txmgmt/validator/statebasedval/state_based_validator.go:321-379 | the first calculation on a key starts from the entry the serial order has there, if any, and its version is from before that point |
| `Calculations.GroupCommit` | core/ledger/kvledger/txmgmt/validator/statebasedval/state_based_validator.go:87-169 | at every point of any block a key that is pending as an update or not calculated has the entry that applying the valid transactions in turn gives |
| `Calculations.CommitExact` | core/ledger/kvledger/txmgmt/validator/statebasedval/state_based_validator.go:87-169 | what committing any block does to any key: a live calculation is stored, otherwise it is as if the valid transactions had been applied in turn |
| `Calculations.CommitIsSerial` | core/ledger/kvledger/txmgmt/validator/statebasedval/state_based_validator.go:87-169 | committing any block is applying its valid transactions in turn exactly if every live calculation gives what they give |
| `CommittedWrites.WriteCommitted` | core/ledger/kvledger/txmgmt/validator/statebasedval/state_based_validator.go:269-285 | over the places of the writes in the block: the last put or delete of a key by a valid transaction, with no calculation on the key in a later transaction, decides what is in the state: the value put with the height of that transaction, or nothing |
| `CommittedWrites.OthersUnchanged` | core/ledger/kvledger/txmgmt/validator/statebasedval/state_based_validator.go:269-285 | a key that no valid transaction writes and none calculates on is as it was |
| `CommittedWrites.CalculationCommitted` | core/ledger/kvledger/txmgmt/validator/statebasedval/state_based_validator.go:321-379 | a calculation after which no valid transaction writes the key: all operations of the block on it, in order, applied to what the first one starts from, are in the state |
| `CommittedWrites.StartExact` | core/ledger/kvledger/txmgmt/validator/statebasedval/state_based_validator.go:321-379 | that start, by places: the last write of a valid transaction before the first calculation, where a delete counts as the empty string, then the database, and "0" with the savepoint |
| `CommittedWrites.WriteReplayed` | core/ledger/kvledger/txmgmt/validator/statebasedval/state_based_validator.go:55-84 | replaying a stored block, the last write of a transaction its flags leave valid decides, and a key without one is as it was, calculations or not |
| `Calculations.ReplayIsSerial` | core/ledger/kvledger/txmgmt/validator/statebasedval/state_based_validator.go:55-84 | replaying any stored block without the checks is applying the transactions its flags leave valid in turn, and keeps the flags |
| `Calculations.ReplayExact` | core/ledger/kvledger/txmgmt/txmgr/lockbasedtxmgr/lockbased_txmgr.go:123-133 | for any block and key, committing gave the live calculation if there is one, and otherwise what replaying the stored block gives |
| `Calculations.ReplayAgreesIff` | core/ledger/kvledger/txmgmt/txmgr/lockbasedtxmgr/lockbased_txmgr.go:123-133 | replaying gives a key what committing gave exactly unless a live calculation on it did harm: the first one found no entry, the key was written since, or the operations change the value |
| `Calculations.ReplayIsCommitIff` | core/ledger/kvledger/txmgmt/txmgr/lockbasedtxmgr/lockbased_txmgr.go:123-133 | replaying a stored block gives the state committing it gave exactly if no key is lost in this sense |
| `Calculations.ReplayIsCommit` | core/ledger/kvledger/txmgmt/txmgr/lockbasedtxmgr/lockbased_txmgr.go:123-133 | in particular for every block without calculations |
| `Calculations.ReplayLosesCalculations` | core/ledger/kvledger/txmgmt/validator/statebasedval/state_based_validator.go:55-84 | for a key not in the database that no valid transaction writes, replaying agrees exactly if no transaction calculates on it |
| `Calculations.CounterIsLost` | core/ledger/kvledger/txmgmt/validator/statebasedval/state_based_validator.go:55-84 | the smallest block that is lost: one calculation on a key not in the database makes a counter when committed and nothing when replayed |
| `Calculations.Revalidate` | core/ledger/kvledger/txmgmt/validator/statebasedval/state_based_validator.go:87-169 | validating a stored block once more gives the same state and flags if its refused transactions leave no trace |
| `Calculations.RevalidatedOps` | core/ledger/kvledger/txmgmt/validator/statebasedval/state_based_validator.go:87-169 | what validating any stored block once more calculates: nothing for a transaction refused the first time, the same as before for one that is valid both times; so if no flag changes, exactly the calculations of the refused ones are missing |
| `StateValidator.MergeIs` | core/ledger/kvledger/txmgmt/validator/statebasedval/combined_iterator.go:77-119 | the merge of the two key lists is sorted and holds exactly the live keys of either |
| `StateValidator.MergeIsScan` | core/ledger/kvledger/txmgmt/validator/statebasedval/combined_iterator.go:77-119 | merging the database's keys with the updates' keys gives the scan of the database with the updates applied |
| `StateValidator.CombinedIterator.constructor` | core/ledger/kvledger/txmgmt/validator/statebasedval/combined_iterator.go:53-75 | the rows to come are those of the range on the updated database, and the end key when it is asked for |
| `StateValidator.CombinedIterator.Advance` | core/ledger/kvledger/txmgmt/validator/statebasedval/combined_iterator.go:77-119 | one turn serves the smaller head, the update on a tie, and skips a deleted key |
| `StateValidator.CombinedIterator.NextLive` | core/ledger/kvledger/txmgmt/validator/statebasedval/combined_iterator.go:77-119 | the loop serves the next live key of the merge, or finds both lists used up |
| `StateValidator.CombinedIterator.Next` | core/ledger/kvledger/txmgmt/validator/statebasedval/combined_iterator.go:77-119 | each call serves the next of the remaining rows; none is served exactly when none remains |
| `StateValidator.CombinedIterator.ServeEndKey` | core/ledger/kvledger/txmgmt/validator/statebasedval/combined_iterator.go:127-155 | the end key is served once, from the updates before the database, unless it is deleted |
| `StateValidator.ValidateRange` | core/ledger/kvledger/txmgmt/validator/statebasedval/range_query_validator.go:47-85 | the recorded rows are accepted exactly when they are the iterator's remaining rows |
| `StateValidator.GetSortedKeys` | core/ledger/kvledger/txmgmt/statedb/statedb.go:271-291 | the batch's keys in order, each once |
| `StateValidator.ValidateRangeQuery` | core/ledger/kvledger/txmgmt/validator/statebasedval/state_based_validator.go:590-614 | a range query is accepted exactly when it would return the recorded rows on the database with the block's updates so far |
| `StateValidator.ValidateNs` | core/ledger/kvledger/txmgmt/validator/statebasedval/state_based_validator.go:544-588 | reads are checked before ranges and the code is that of the first kind that fails |
| `StateValidator.ValidateTx` | core/ledger/kvledger/txmgmt/validator/statebasedval/state_based_validator.go:287-319 | namespaces are checked in order, each seeing the calculations of those before it |
| `StateValidator.ValidateAndPrepareBatch` | core/ledger/kvledger/txmgmt/validator/statebasedval/state_based_validator.go:87-233 | the loop over the block computes the specified batch and flags |
| `Serializability.ValidTransactionsAreSerialIff` | core/ledger/kvledger/txmgmt/validator/statebasedval/state_based_validator.go:287-319 | serialisability along any chain of blocks from the first, exactly: a transaction simulated after some of them that stays valid in a later one would, run again at its place, make the same observations, whatever the chaincode computes from them, if and only if every key it saw is unmoved: its value with all operations of the blocks in between and of the transactions before it is the value it had |
| `Serializability.ValidTransactionsKeptIff` | core/ledger/kvledger/txmgmt/validator/statebasedval/state_based_validator.go:287-319 | the same in terms of the calculations alone, for a transaction whose records are checked before it calculates on the keys itself: a key it saw absent has no operations left standing, and the operations on a key it saw present give the value it had |
| `Serializability.ValidTransactionsAreSerial` | core/ledger/kvledger/txmgmt/validator/statebasedval/state_based_validator.go:287-319 | in particular if no calculation in between is on a key it saw |
| `Serializability.ValidInItsBlock` | core/ledger/kvledger/txmgmt/validator/statebasedval/state_based_validator.go:287-319 | within one block, against any earlier state: a valid transaction sees at its place what it saw there if and only if the calculations before it leave every key it saw as it was |
| `Serializability.QueryKeptIff` | core/ledger/kvledger/txmgmt/validator/statebasedval/state_based_validator.go:556-614 | the same for one query, a read of a present or absent key or a scan read to its end or not: the answer is the same if and only if the calculations leave every key it saw as it was, so a counter made inside a scanned range is a phantom that passes the check |
| `Serializability.KeptIff` | core/ledger/kvledger/txmgmt/validator/statebasedval/state_based_validator.go:556-614 | a key that a valid transaction saw present is not written before its place, so only operations can change it; one seen absent stays absent exactly if there are no operations or a delete follows them |
| `Serializability.CalculatedReadPasses` | core/ledger/kvledger/txmgmt/validator/statebasedval/state_based_validator.go:556-575 | why: the check of a read, present or absent, passes exactly if no valid transaction before writes the key last, whatever is calculated on it; then the read gives the same at its place exactly if nothing is calculated, or the key was there and the operations give its value |
| `Serializability.SeesTheSameIff` | core/ledger/kvledger/txmgmt/validator/statebasedval/state_based_validator.go:87-169 | for any state and any transaction, valid or not: it sees at a place in a block what it saw on that state exactly if writes and operations up to there give every key it saw the value it had |
| `Serializability.ValidReadsAreCurrent` | core/ledger/kvledger/txmgmt/validator/statebasedval/state_based_validator.go:287-319 | everything a valid transaction has recorded holds in the database with the updates pending when its namespace is checked: those at its place, but for keys its own earlier namespaces calculate on |
| `Serializability.FlagExact` | core/ledger/kvledger/txmgmt/validator/statebasedval/state_based_validator.go:87-169 | the flag of every transaction of any block: one invalid before or of another type keeps its flag; one is valid exactly if every read and range query of every namespace stands when it is reached; otherwise the first namespace that does not decides, as a read conflict exactly if one of its reads does not stand, and else as a phantom |
| `Serializability.ValidSeen` | core/ledger/kvledger/txmgmt/validator/statebasedval/state_based_validator.go:544-614 | every key that a valid transaction saw has the version it had, in the database unless a valid transaction before writes the key last, and in the updates pending at its place |
| `Serializability.OneEntryIsApart` | core/ledger/kvledger/txmgmt/rwsetutil/rwset_builder.go:80-113 | with one entry for each namespace, as the simulator builds them, every record is checked before the transaction calculates on its keys |
| `Serializability.PlaceIsSerial` | core/ledger/kvledger/txmgmt/validator/statebasedval/state_based_validator.go:87-169 | the state at a place in any block is the serial order of the valid transactions before it, but for pending calculations |
| `Serializability.NoneInIff` | core/ledger/kvledger/txmgmt/validator/statebasedval/state_based_validator.go:321-379 | no operation on a key, read off the block: no transaction up to there calculates on it |
| `Serializability.OldEntry` | core/ledger/kvledger/txmgmt/validator/statebasedval/state_based_validator.go:321-379 | an entry that has an old version after a block had it before, and its value is the old one with the block's operations: these keep versions |
| `Serializability.ValueAlong` | core/ledger/kvledger/txmgmt/statedb/stateleveldb/stateleveldb.go:134-155 | along any chain, a key that has the version it had has the value that all operations in between give, in their order, from the value it had |
| `Serializability.ChainBefore` | core/ledger/kvledger/txmgmt/statedb/stateleveldb/stateleveldb.go:134-155 | after any blocks with increasing numbers the state has only versions of these blocks, calculations included |
| `Serializability.ChainIsSerialIff` | core/ledger/kvledger/txmgmt/validator/statebasedval/state_based_validator.go:87-169 | every state of a chain is the serial execution of the valid transactions up to there exactly if every live calculation of every block gives what its valid transactions give |
| `Observations.ObserveIff` | core/ledger/kvledger/txmgmt/txmgr/lockbasedtxmgr/helper.go:209-245 | two states answer a query alike if and only if every key the query sees on one has the same presence and value on the other |
| `Observations.TraceIff` | core/ledger/kvledger/txmgmt/txmgr/lockbasedtxmgr/helper.go:83-120 | the same for a whole run of any chaincode, whose queries depend on the answers so far |
| `Observations.SeenVersion` | core/ledger/kvledger/txmgmt/txmgr/lockbasedtxmgr/helper.go:209-245 | when what was recorded for a query holds now, every key it saw, absent ones included, has the version it had |
| `Observations.SameObservation` | core/ledger/kvledger/txmgmt/txmgr/lockbasedtxmgr/helper.go:209-245 | when what was recorded for any query still holds and versions tell values, the query gives the same answer, with values |
| `Observations.PartialScan` | core/ledger/kvledger/txmgmt/txmgr/lockbasedtxmgr/helper.go:227-245 | for a scan that stopped early, recording the last key as the end of the range suffices: the first rows are the same now |
| `Observations.LastKeyNotEmpty` | core/ledger/kvledger/txmgmt/validator/statebasedval/combined_iterator.go:127-155 | a scan that stopped at the empty key has recorded no end of the range and never passes its check |
| `Observations.ExhaustedScan` | core/ledger/kvledger/txmgmt/txmgr/lockbasedtxmgr/helper.go:209-225 | for a scan read to its end the whole range is the same now |
| `RecoveredState.RecoveryRestoresState` | core/ledger/kvledger/kv_ledger.go:71-131 | over every run of submissions validated against the state as the peer finds it, deaths and restarts: the stored blocks carry the flags, and a peer that is up has the state, of a peer that was never interrupted, if replaying its blocks loses nothing |
| `RecoveredState.SubmitReaches` | core/ledger/kvledger/kv_ledger.go:211-241 | for every block, whatever its calculations: submitted to a peer that is up, it leaves the state and the stored block that validating and committing it gives; a refused one changes nothing |
| `RecoveredState.UninterruptedRun` | core/ledger/kvledger/kv_ledger.go:211-241 | over every run without deaths and restarts the peer has exactly the accepted blocks, with the flags and the state that committing them in turn gives, whatever the blocks |
| `RecoveredState.RestartReplays` | core/ledger/kvledger/kv_ledger.go:71-131 | after any run, a restart that ends leaves what the state database had kept, with the stored blocks it lacks replayed on top, and no block changed |
| `RecoveredState.CrashRestoresIff` | core/ledger/kvledger/kv_ledger.go:211-241 | and only then: a block stored before a death and replayed after any such run leaves the state of an uninterrupted peer exactly if no key is lost |
| `RecoveredState.CrashLosesCounter` | core/ledger/kvledger/kv_ledger.go:211-241 | what is lost then: after every such run with at least one stored block, a block that makes a counter on a key not in the state is stored, the peer dies, and the restarted peer is up with the block in its chain and without the counter that an uninterrupted peer has |
| `RecoveredState.CounterInSecondBlock` | core/ledger/kvledger/kv_ledger.go:211-241 | there is such a run: a first block without chaincode transactions, with the counter in the second block |
| `RecoveredState.EitherWay` | core/ledger/kvledger/recovery.go:22-33 | a block whose replay loses nothing has the same effect by Commit and by CommitLostBlock |
| `RecoveredState.AnyMix` | core/ledger/kvledger/recovery.go:22-33 | any mix of commits and replays of such blocks gives the state of committing them all |
| `ShimProtocol.OneAtATime` | core/chaincode/shim/handler.go:91-156 | in every interleaving a transaction has at most one request or response on the way or in work, and only while the shim holds its channel; no request is dropped and no response goes astray |
| `ShimProtocol.AnswerOnItsWay` | core/chaincode/handler.go:599-661 | a channel that waits has its request on the way, in work or answered |
| `ShimProtocol.AnswerArrives` | core/chaincode/handler.go:599-661 | at any point of any run, at most ten steps of the waiting request alone, whatever the ledger answers, bring the answer to the request that is waited for |
| `ShimProtocol.RequestIsAnswered` | core/chaincode/shim/handler.go:91-156 | a request made while the transaction has no other is answered in this way, and then the transaction can make the next |
| `ShimProtocol.AnswersAreSo` | core/chaincode/handler.go:757-950 | over every run, an answer on its way or delivered is so: a query response with more to come has its iterator in the table of a context of the transaction, one without, and a page that failed, has it closed and out of the table; an iterator not found is not there; and each kind of request gets only its kinds of answer, about its own iterator |
| `ShimProtocol.CloseQueryCloses` | core/chaincode/handler.go:886-946 | a request to close an iterator that finds it in its context's table: whatever else happens in between, when it has its answer the iterator is closed and out of the table |
| `ShimProtocol.PageKeepsOrCloses` | core/chaincode/handler.go:757-877 | a page that is read keeps its iterator in the table exactly if it is full; otherwise the iterator is closed and then removed, with a last page or an error as the answer |
| `ShimProtocol.OpenPutsInTable` | core/chaincode/handler.go:678-755 | opening a query makes an iterator no context has had, which is in the table before its first page is read |
| `ShimProtocol.ErrorsHaveReasons` | core/chaincode/handler.go:678-950 | a request is told that there is no context only if there is none, and that the query or page failed only if the ledger failed |
| `ShimProtocol.OthersLeaveIterators` | core/chaincode/handler.go:599-661 | over every run, the steps of a request that is not about a query leave all iterators as they were |
| `ShimProtocol.ClosedByItsOwner` | core/chaincode/handler.go:544-559 | over every run, an iterator is closed only on behalf of the transaction that opened it |
| `ShimProtocol.ContextMade` | core/chaincode/handler.go:184-215 | a transaction gets a context that no other transaction has |
| `ShimProtocol.ContextLasts` | core/chaincode/handler.go:184-215 | and keeps it until it is deleted |
| `ShimProtocol.NextKeepsProtocol` | core/chaincode/handler.go:458-479 | each step of shim, stream or peer keeps this: txidMap holds exactly the transactions with a request in work |
| `ShimProtocol.RemovedOnlyClosed` | core/chaincode/handler.go:217-234 | an iterator leaves a transaction's table only when it is closed |
| `ShimProtocol.NotifyClosesAll` | core/chaincode/handler.go:544-559 | completion notified while no request of the transaction is in work closes every iterator it ever opened |
| `ShimProtocol.CompletionClosesAll` | core/chaincode/handler.go:544-571 | in particular when the chaincode has returned from all its calls |
| `ShimProtocol.NextKeepsIterators` | core/chaincode/handler.go:678-950 | each step keeps this: an iterator ever opened is closed, in its table, or in the hands of a request in work |
| `QueryPaging.Drain` | core/chaincode/shim/chaincode.go:560-631 | draining a query returns the ledger iterator's rows in order, all of them exactly if none is broken, for every number of rows; with a broken page all rows before it but the last |
| `QueryPaging.Query.GetQueryResponse` | core/chaincode/handler.go:757-792 | a page is the next 100 rows or all that are left; the iterator stays open exactly for a full page; an error closes it |
| `QueryPaging.Query.HandleNext` | core/chaincode/handler.go:809-877 | the same on request, and an error exactly when the iterator is gone or the page is broken |
| `QueryPaging.CommonIterator.HasNext` | core/chaincode/shim/chaincode.go:560-566 | true exactly if rows remain, or a fetch has failed |
| `QueryPaging.CommonIterator.FetchNextQueryResult` | core/chaincode/shim/chaincode.go:591-599 | the next page replaces the used-up one; it fails exactly if the peer's iterator is gone or the page is broken |
| `QueryPaging.CommonIterator.NextResult` | core/chaincode/shim/chaincode.go:604-631 | rows come one by one in order; "Invalid iterator state" is returned exactly after a failed fetch; the call whose fetch fails loses its row |
| `QueryPaging.Delivered` | core/chaincode/shim/chaincode.go:604-631 | everything is delivered if and only if nothing is broken |
| `BroadcastClient.AtMostOneOpen` | core/deliverservice/client.go:142-198 | in every interleaving of a worker, its nested reconnects and any number of Close calls, at most one connection is open |
| `BroadcastClient.NoLeak` | core/deliverservice/client.go:205-234 | once a Close has returned and the worker is outside connect, every connection ever opened is closed |
| `BroadcastClient.NeverStuckNeverNil` | core/deliverservice/client.go:205-218 | Close never waits for room in stopChan, and no action runs without a stream |
| `BroadcastClient.AtMostOneAfterStop` | core/deliverservice/client.go:94-133 | after the stop flag is set at most one more connection is opened, by a worker already past the check |
| `BroadcastClient.TryReturns` | core/deliverservice/client.go:94-121 | over every run: a try ends with success only by an action that succeeded while the client was not stopped, and with an error only if it is stopped at the head of the loop or the retry policy gives up; that result goes to the worker, or to the onConnect around it |
| `BroadcastClient.FailedActionDisconnects` | core/deliverservice/client.go:119-133 | over every run and whatever follows: after a failed action, as soon as the worker goes on its connection is closed, and it is never used again |
| `BroadcastClient.FailureLeavesNothing` | core/deliverservice/client.go:119-133 | over every run the worker has no connection when an attempt has failed and while it waits to retry |
| `BroadcastClient.HangupClosesAll` | core/deliverservice/client.go:220-229 | over every run, Disconnect while no call is under way leaves no connection open |
| `BroadcastClient.ActsOnlyWhenSetUp` | core/deliverservice/client.go:172-198 | over every run the worker's own actions use only a connection whose onConnect has succeeded |
| `BroadcastClient.ActsOnConnection` | core/deliverservice/client.go:94-133 | a call on a running client with a connection succeeds on it in three steps if the network does |
| `BroadcastClient.ConnectsAndActs` | core/deliverservice/client.go:94-198 | one without a connection opens one, lets onConnect send through it and succeeds on it, in eleven steps |
| `BroadcastClient.RetriesWithoutConnection` | core/deliverservice/client.go:94-141 | one whose action fails and that may be retried gives up its connection and starts again without one |
| `BroadcastClient.NextKeepsInv` | core/deliverservice/client.go:94-244 | every step keeps the invariant that ties open connections to the stored one and the one being set up |
| `DeliverBlocks.Deliver` | core/deliverservice/blocksprovider/blocksprovider.go:128-196 | payloads added and gossiped are the good blocks; the loop goes on exactly until a response that ends it or Stop; its counters are the trailing refusals, at most 10, and the trailing statuses, counted to 7; the delays are those of the back-off rule, with a disconnect after each |
| `DeliverBlocks.GoodInOrder` | core/deliverservice/blocksprovider/blocksprovider.go:163-190 | the payloads are the received blocks that serialise and verify, each once, in the order received |
| `DeliverBlocks.EleventhRefusal` | core/deliverservice/blocksprovider/blocksprovider.go:144-150 | a status or block ends the loop exactly if it is the eleventh BAD_REQUEST or FORBIDDEN in a row |
| `DeliverBlocks.RefusalsExact` | core/deliverservice/blocksprovider/blocksprovider.go:144-154 | the counter reaches k exactly if the last k responses are refusals |
| `DeliverBlocks.StatusesExact` | core/deliverservice/blocksprovider/blocksprovider.go:155-165 | the counter behind the pauses reaches k exactly if the last k responses are statuses, so a block begins the pauses anew |
| `DeliverBlocks.PausesInOrder` | core/deliverservice/blocksprovider/blocksprovider.go:155-160 | there is one pause for each status, in order, as long as the number of statuses directly before it says |
| `DeliverBlocks.DelayDoubles` | core/deliverservice/blocksprovider/blocksprovider.go:155-160 | 100 ms, then twice the pause before, up to 10 s |
| `DeliverBlocks.OthersEnd` | core/deliverservice/blocksprovider/blocksprovider.go:132-194 | a receive error, SUCCESS and an unknown response end the loop; a block and another status never do |
| `DeliverBlocks.DelayGrows` | core/deliverservice/blocksprovider/blocksprovider.go:155-160 | stopping the counter at 7 does not change any pause |
| `DeliverBlocks.DelaysBounded` | core/deliverservice/blocksprovider/blocksprovider.go:155-160 | every pause is between 100 ms and 10 s |
| `ContainerLocks.MutualExclusion` | core/container/controller.go:78-111 | over all interleavings no two goroutines have the lock of one container, although lock objects are dropped and made again |
| `ContainerLocks.EntryCountsUsers` | core/container/controller.go:78-111 | an entry exists exactly while someone waits for or has the lock; its count is the number of these; all of them mean the entry's lock object |
| `ContainerLocks.NoFaults` | core/container/controller.go:96-111 | the panic, "no lock to unlock" and unlocking an unlocked lock never happen |
| `ContainerLocks.NeverStuck` | core/container/controller.go:78-111 | as long as a request is under way some goroutine can take a step |
| `ContainerLocks.UnlockFinds` | core/container/controller.go:96-103 | unlocking finds the lock object that was locked |
| `ContainerLocks.KeepsLocks` | core/container/controller.go:78-111 | every step keeps the invariant on table, counts and owners |
| `ContainerLocks.LocksWhatWasAsked` | core/container/controller.go:245-256 | over every run, a goroutine that waits for, has or gives back a lock means the container it was last asked for |
| `UpgradeConflicts.InvalidTxsForUpgradeCC` | core/committer/txvalidator/validator.go:239-284 | whatever the order of both maps: an upgrade is a conflict exactly if a later one upgrades the same chaincode, an otherwise valid invocation exactly if its chaincode is upgraded in the block, and all other codes stay |
| `UpgradeConflicts.MarkSuperseded` | core/committer/txvalidator/validator.go:245-267 | the first loop marks exactly the superseded upgrades and finds the last upgrade of each chaincode |
| `UpgradeConflicts.SeeUpgrade` | core/committer/txvalidator/validator.go:251-267 | one more upgrade supersedes, or is superseded by, the last one of its chaincode and no other |
| `UpgradeConflicts.Validate` | core/committer/txvalidator/validator.go:111-231 | the codes of a whole block, from the results of the checks on its entries; an error exactly for a configuration that cannot be applied |
| `UpgradeConflicts.CodesMean` | core/committer/txvalidator/validator.go:111-284 | the codes of a block read off its entries: a rejected entry keeps its code and one without data is valid; a configuration is valid exactly if it can be marshalled; an endorsed entry is valid exactly if it can be marshalled, no later entry upgrades what it upgrades and none upgrades what it invokes; which of the other two codes it gets |
| `UpgradeConflicts.LastUpgradeStays` | core/committer/txvalidator/validator.go:239-284 | only the last upgrade of a chaincode can stay valid, and then no transaction of the block that invokes it |
| `UpgradeConflicts.KeyWithinChain` | core/committer/txvalidator/validator.go:233-236 | within a chain the key is unique for the name |
| `UpgradeConflicts.KeyAcrossChains` | core/committer/txvalidator/validator.go:233-236 | across chains the key tells two chaincodes apart exactly unless one name continues the other past a slash that the other's chain makes up for; never with slash-free names |
| `UpgradeConflicts.KeysCollide` | core/committer/txvalidator/validator.go:233-236 | two chaincodes of different chains with one key |
| `Voting.TotalsDecide` | core/scc/rbcapproval/rbcapproval.go:400-419 | veto types 1 and 3: with all n votes the verdict depends on the totals alone |
| `Voting.Thresholds` | core/scc/rbcapproval/rbcapproval.go:400-419 | the thresholds without rounding: type 1 is rejected with a vote against and passes with n in favour; type 2 is rejected if 3 * against > n + 1 and else passes if 3 * in favour >= n; type 3 likewise with 2; any other type is never decided |
| `Voting.FullBallotGives` | core/scc/rbcapproval/rbcapproval.go:400-419 | after all n votes type 1 has passed exactly if all agree and is rejected otherwise, and type 3 has passed exactly if at least half agree |
| `Voting.TypeTwoOrder` | core/scc/rbcapproval/rbcapproval.go:406-412 | veto type 2: two orders of the same votes end differently exactly if both thresholds are reached and, for a creator who votes, there are at least four super users |
| `Voting.DecidedInTheEnd` | core/scc/rbcapproval/rbcapproval.go:400-419 | after all n votes types 1 and 2 are decided, and type 3 is undecided exactly if n is odd and (n + 1) / 2 voted against |
| `Voting.BelowTwoThirds` | core/scc/rbcapproval/rbcapproval.go:63-63 | the coded pass threshold against the comment's two thirds: a ballot passes with fewer exactly if n is at least 2 |
| `Voting.BackedByTotals` | core/scc/rbcapproval/rbcapproval.go:387-419 | a verdict is backed by the totals so far, and none is missed |
| `Voting.Uncontested` | core/scc/rbcapproval/rbcapproval.go:400-419 | unless the totals reach both thresholds the order does not matter |
| `Voting.Sticky` | core/scc/rbcapproval/rbcapproval.go:339-341 | votes after a verdict do not change it |
| `Approvals.NobodySignsTwice` | core/scc/rbcapproval/rbcapproval.go:369-383 | over every run no super user signs an item twice |
| `Approvals.SignedBySuperUsers` | core/scc/rbcapproval/rbcapproval.go:369-383 | over every run each signature of each item was given by an event on it whose caller is an active super user with that number: in favour by the creation, and as chosen by a vote |
| `Approvals.CreatedAsAsked` | core/scc/rbcapproval/rbcapproval.go:158-223 | over every run each item has the veto type, call and creator of a creation by an active customer, and carries his signature from the creation exactly if he is a super user |
| `Approvals.VoteCountsIff` | core/scc/rbcapproval/rbcapproval.go:315-383 | exactly which votes change anything: those of an active super user, for or against, on an undecided item he has not signed; they add his signature and leave all other items |
| `Approvals.CreationSucceedsIff` | core/scc/rbcapproval/rbcapproval.go:158-235 | exactly which creations do: those of an active customer with a new id whose installed code can be read; they leave all other items |
| `Approvals.HeaderNeeded` | core/scc/rbcapproval/rbcapproval.go:264-274 | a channel header that cannot be read refuses exactly the transactions that would pass the item |
| `Approvals.ListsInOrder` | core/scc/rbcapproval/rbcapproval.go:421-426 | over every run the list of all items is in the order of creation, and that of the passed ones in the order of their calls |
| `Approvals.ListsMirrorStatus` | core/scc/rbcapproval/rbcapproval.go:421-426 | over every run an id is in approval_s exactly if its status is s, once, and in approval exactly if it is stored |
| `Approvals.CalledOnceIffPassed` | core/scc/rbcapproval/rbcapproval.go:428-444 | over every run the call of an item is attempted exactly once if its status is "2", and never otherwise |
| `Approvals.DecisionsStand` | core/scc/rbcapproval/rbcapproval.go:339-383 | nothing later takes a signature back or changes a decided item |
| `Approvals.StatusByTheRule` | core/scc/rbcapproval/rbcapproval.go:385-419 | with a fixed number of super users a status is what the voting rule gives for the signatures in their order |
| `Approvals.FullBallot` | core/scc/rbcapproval/rbcapproval.go:315-460 | when all remaining super users submit their votes, the status is what the rule gives for all of them, although those after the verdict are refused |
| `Approvals.AllHaveVoted` | core/scc/rbcapproval/rbcapproval.go:315-460 | then only the totals matter for types 1 and 3, and types 1 and 2 are decided |
| `Approvals.PassedAtOnce` | core/scc/rbcapproval/rbcapproval.go:235-292 | a new item passes at once exactly if no more super users are counted than have signed it, so without any vote when the count fails |
| `Approvals.PagesShowAll` | core/scc/rbcapproval/rbcapproval.go:472-524 | over every run the pages of a status list show its items with a non-empty id, each once, the newest first |
| `Approvals.Chaincode.NewApproval` | core/scc/rbcapproval/rbcapproval.go:158-311 | the code computes the specified transition, and fails exactly when that refuses the transaction |
| `Approvals.Chaincode.Approval` | core/scc/rbcapproval/rbcapproval.go:315-460 | the same for a vote |
| `Approvals.Chaincode.QueryAllApproval` | core/scc/rbcapproval/rbcapproval.go:472-524 | the page asked for, clamped to the last one, of the reversed list, without empty or unknown ids |
| `Approvals.CountVotes` | core/scc/rbcapproval/rbcapproval.go:388-419 | the counting loop and the thresholds give the verdict of the veto type |
| `Approvals.HasSigned` | core/scc/rbcapproval/rbcapproval.go:371-376 | finds a signature of the customer exactly if there is one |
| `RList.PagesCover` | core/scc/rbcapproval/rbcapproval.go:493-505 | the pages from 0 to the last one served are the whole list |
| `RList.QueriesShowNamed` | core/scc/rbcapproval/rbcapproval.go:505-522 | asking for every page shows every listed record but that of the empty id, once and in order |
| `RList.QueriesCover` | core/scc/rbcapproval/rbcapproval.go:493-522 | asking for every page returns every listed record once, in order |
| `RList.LastPage` | core/scc/rbcapproval/rbcapproval.go:493-505 | a query for the last page or beyond shows what the full pages leave of the list |
| `RList.BelowFirst` | core/scc/rbcapproval/rbcapproval.go:493-505 | a query for a negative page shows the first |
| `RList.RemoveKeepsOrder` | core/scc/rbccustomer/rbccustomer.go:353-360 | removing an element and adding it again leaves the others in their order, and puts it at the end |
| `CustomerLists.TypeListsMirror` | core/scc/rbccustomer/rbccustomer.go:337-374 | over every run with underscore-free types and statuses an id is in customer_T exactly if its type is T, and in customer_T_S, T not empty, exactly if its type and status are T and S |
| `CustomerLists.ModifyKeepsStatusIff` | core/scc/rbccustomer/rbccustomer.go:362-374 | a modification keeps customer__S right exactly if it does not change the type together with the status, nor give a customer without a type his first one |
| `CustomerLists.StaleEntry` | core/scc/rbccustomer/rbccustomer.go:362-367 | what such a modification leaves: the id is missing from the list of its status, and stale in that of its old status exactly if it had a type |
| `CustomerLists.StatusListsMirror` | core/scc/rbccustomer/rbccustomer.go:241-246 | over every run without such a modification an id is in customer__S exactly if its status is S |
| `CustomerLists.NamesDiffer` | core/scc/rbccustomer/rbccustomer.go:241-246 | list names of different types and statuses are different |
| `CustomerLists.UnderscoresCollide` | core/scc/rbccustomer/rbccustomer.go:241-246 | with underscores they are not: every list of a type and a status is also the list of a type |
| `CustomerLists.SuperUsersCounted` | core/scc/rbcapproval/rbcapproval.go:133-154 | the size of the list joint approval asks for is the number of customers of type and status "1" |
| `CustomerRights.QueryServes` | core/scc/rbccustomer/rbccustomer.go:426-492 | over every run, asking for every page of a query by type, by status, by both or by neither returns exactly the customers asked for, once each; by status alone, if no modification has disturbed the status lists |
| `CustomerLists.Chaincode.Register` | core/scc/rbccustomer/rbccustomer.go:161-248 | the code computes the specified registration, and fails exactly when it is not allowed, the id is empty or the id or number is taken |
| `CustomerLists.Chaincode.ModifyInfo` | core/scc/rbccustomer/rbccustomer.go:298-394 | the code computes the specified modification of record, index and lists |
| `CustomerLists.Chaincode.QueryAll` | core/scc/rbccustomer/rbccustomer.go:426-492 | the page asked for, clamped to the last one, of the list the type and the status select |
| `CustomerRights.RegistersIff` | core/scc/rbccustomer/rbccustomer.go:161-222 | over every run, exactly which registrations succeed: a non-empty new id and a number not in the index, asked for by anyone while there are no customers, and then by a customer of type 1, 2 or 3, of type 1 for a type below 4 |
| `CustomerRights.RegisteredRightly` | core/scc/rbccustomer/rbccustomer.go:161-222 | over every run each customer has his number from a registration by someone who was entitled to it then, whose number is kept as his registrar |
| `CustomerRights.ChangedOnlyByApproval` | core/scc/rbccustomer/rbccustomer.go:298-394 | a record changes only by a modification of it made by a customer of type 1 through joint approval; number and registrar never change, and nobody is removed |
| `CustomerRights.ModifiesIff` | core/scc/rbccustomer/rbccustomer.go:298-330 | exactly which modifications are accepted |
| `CustomerRights.HoldsLastSaid` | core/scc/rbccustomer/rbccustomer.go:332-394 | over every run type, status and certificate of a customer are what the last accepted event on him said about them, where an empty string says nothing and a registration says status 1 |
| `CustomerRights.AllAreListed` | core/scc/rbccustomer/rbccustomer.go:240-241 | over every run the list of all customers has exactly those with a record, in the order of registration |
| `CustomerRights.FoundIff` | core/scc/rbccustomer/rbccustomer.go:231-238 | another customer's registration or modification leaves a customer found by his certificate exactly if it does not enter that certificate in the index |
| `CustomerRights.AllAreFound` | core/scc/rbccustomer/rbccustomer.go:123-156 | over every run in which nobody enters another's certificate every customer is found by his own |
| `CustomerRights.AtoiOfItoa` | core/scc/rbccustomer/rbccustomer.go:177-184 | reading a type as a number undoes writing the number, with or without a sign |
| `CompositeKeys.SplitUndoesCreate` | core/chaincode/shim/chaincode.go:477-501 | for valid components splitting undoes creating |
| `CompositeKeys.SplitGivesBack` | core/chaincode/shim/chaincode.go:477-501 | splitting a created key gives back its object type and its attributes in order |
| `CompositeKeys.CreateInjective` | core/chaincode/shim/chaincode.go:477-489 | creation is injective on valid components |
| `CompositeKeys.CreateUndoesSplit` | core/chaincode/shim/chaincode.go:491-501 | creating undoes splitting exactly on keys of the namespace that end in U+0000 |
| `CompositeKeys.PartialScan` | core/chaincode/shim/chaincode.go:529-541 | the scan for a partial key contains a composite key exactly if the components asked for are the first of its components, the key itself included |
| `CompositeKeys.CreateCompositeKey` | core/chaincode/shim/chaincode.go:477-489 | an error exactly if some component is invalid, otherwise the encoding of all components |
| `CompositeKeys.SplitCompositeKey` | core/chaincode/shim/chaincode.go:491-501 | the terminated stretches of the key; a panic exactly if there is none |
| `CompositeKeys.ValidateAttribute` | core/chaincode/shim/chaincode.go:503-514 | accepts exactly the strings without U+0000 and U+10FFFF |
| `CompositeKeys.RangeBounds` | core/chaincode/shim/chaincode.go:439-447 | refuses exactly bounds in the composite namespace; the bounds sent contain no composite key and exactly the non-empty simple keys asked for |
| `MockStub.Stub.PutState` | core/chaincode/shim/mockstub.go:182-222 | refused exactly outside a transaction; otherwise the value is stored, and the linked list stays strictly sorted with exactly the keys of State |
| `MockStub.Stub.DelState` | core/chaincode/shim/mockstub.go:225-236 | the key leaves the map and the list, which stays linked and sorted |
| `MockStub.RunCalls` | core/chaincode/shim/mockstub.go:127-236 | after any calls that start and end transactions, put and delete, the map is what the calls made within transactions give, and the linked list is its keys in order, each once |
| `MockStub.LastCallHolds` | core/chaincode/shim/mockstub.go:127-236 | after any calls a key has what the last delete of it, or put of it within a transaction, says |
| `MockStub.OpenIff` | core/chaincode/shim/mockstub.go:127-137 | a transaction is under way exactly if the last call that starts or ends one starts it with an id |
| `MockStub.Stub.InsertKey` | core/chaincode/shim/mockstub.go:191-219 | the walk puts the key at its place in the linked list, or leaves the list if the key is there |
| `MockStub.Stub.DeleteKey` | core/chaincode/shim/mockstub.go:229-233 | the walk removes exactly the element with the key |
| `MockStub.RangeQueryIterator.HasNext` | core/chaincode/shim/mockstub.go:379-414 | true exactly if a key of the range is still to come |
| `MockStub.RangeQueryIterator.Next` | core/chaincode/shim/mockstub.go:418-444 | succeeds exactly when HasNext is true, with the next key of the range and its value |
| `MockStub.QueryRange` | core/chaincode/shim/mockstub.go:379-444 | over an unchanged stub a range query returns exactly the keys with start <= k <= end, or all for two empty bounds, once each, in order, with their values |
| `MockStub.SelectExact` | core/chaincode/shim/mockstub.go:418-444 | the keys served are sorted and are exactly those of the list in the range |

## Left out

- Serializability.ValidTransactionsAreSerial: a sufficient condition; the exact one is in Serializability.ValidTransactionsAreSerialIff.
- Serializability.ValidTransactionsKeptIff: for records that are checked before the transaction calculates on their keys itself, as all are with one entry a namespace (Serializability.OneEntryIsApart); Serializability.ValidTransactionsAreSerialIff holds for the others too.
- Serializability.ValidInItsBlock: likewise; Serializability.SeesTheSameIff holds for the others too.
- Serializability.QueryKeptIff: likewise.
- Serializability.KeptIff: likewise.
- Serializability.ValidTransactionsAreSerialIff: for range queries recorded with their rows, not with Merkle hashes.
- Calculations.ReplayAgreesIff: for a database that has only versions of earlier blocks, as every chain has (Serializability.ChainBefore).
- Calculations.ReplayIsCommitIff: likewise.
- RecoveredState.CrashRestoresIff: likewise.
- Calculations.Revalidate: for refused transactions that leave no trace; what is missing otherwise is in Calculations.RevalidatedOps. Values that rest on missing calculations are not compared any further, and a transaction that was valid may be refused the second time.
- StateValidator.ValidateRangeQuery: does not model the check of range queries that are recorded with Merkle hashes.
- StateValidator.ValidateAndPrepareBatch: does not model the block statistics and the `__RLIST_` writes that are added to the batch.
- ShimProtocol.NotifyClosesAll: requires that no request of the transaction is in work, since an iterator just opened is not yet in the table that completion goes through; a context that a timeout has deleted is not completed.
- CustomerLists.TypeListsMirror: for underscore-free types and statuses, since with underscores list names collide (CustomerLists.UnderscoresCollide).
- CustomerLists.ModifyKeepsStatusIff: likewise.
- CustomerLists.StaleEntry: likewise.
- CustomerLists.StatusListsMirror: likewise.
- CustomerLists.SuperUsersCounted: likewise.
- CustomerRights.QueryServes: likewise.
- CustomerRights.AllAreFound: for runs in which nobody enters another customer's certificate, id or number as his own certificate; CustomerRights.FoundIff says exactly what that does.
- BroadcastClient.TryReturns: what an action returns besides success is not modelled.
- Approvals.PagesShowAll: an item with the empty id, which the source accepts, is stored and listed but not shown.
- MockStub.QueryRange: for a stub that is not changed while the iterator is in use.
- The missing savepoint of the first block: the model gives every block a savepoint height, while the source has none (nil) for the first one, so that a calculation on an absent key in the first block panics when its version is encoded (core/ledger/kvledger/txmgmt/statedb/util.go:22-23).
- The text form of calculations: `__CAL_` keys are parsed elsewhere, and the operation is a function given with the write.
- `__RLIST_` writes, the tree behind the stub's lists, the `##RCOUNT##` keys and the block statistics of the validator. A stub list is a sequence without duplicates, to whose end Add moves the element.
- The range-query check by Merkle hashes, and rich queries.
- The format of stored blocks: AddBlock is one atomic write, and a block carries the flags it was validated with.
- The wrap-around of 64-bit block numbers and of the votes, and the range check of integers read from text.
- An id store that cannot tell an absent key from an empty value.
- The other reasons for which a transaction is invalid (signatures, endorsement policies, duplicates, formats): an entry of a block comes with their result.
- getTxCCInstance: the instances a transaction invokes and upgrades are given.
- Chaincode-to-chaincode invocation on the stream, the state machine of registration, and keep-alive messages. A failed send ends the stream.
- The launching and stopping of chaincodes, Docker, gRPC, TLS, configuration and logging.
- Sleeping: the loop's pauses are recorded, not waited for, and the retry policy of the broadcast client is any answer.
- Invalid UTF-8 in composite keys: keys are sequences of code points.
- The state keys of customers and of index entries share a name space in the source (an id that begins with `__IDX_` could meet an index entry); the model keeps them apart. Certificates stand for their fingerprints.
- The dispatch of modify and modifyDict goes on after an error; the model refuses a modification of an unknown customer.
- Names, authentication status and dictionary of a customer, and descriptions and times of an approval: they take part in no decision beyond the permission check.
- SendToOrderer, performance tests and peer statistics.

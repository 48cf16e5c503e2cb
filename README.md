# Epoch tracker of the osmosis `x/epochs` module, in Dafny

The epochs module keeps a keyed table of `EpochInfo` records. Each record
describes a recurring window ("epoch") of fixed duration, such as "monthly".
`BeginBlocker` runs once per block and moves every record through a small
state machine, using only the stored record and the block's height and time:

* **not started.** While the block time is before `StartTime`, nothing changes.
  The record stays at epoch 0 with an unset `CurrentEpochStartTime`, and
  `CurrentEpochStartHeight` equals `StartHeight`.
* **first start.** It fires at the first block with `StartTime <= blockTime`;
  equality is enough. It sets:
  * `CurrentEpoch = 1` and `EpochCountingStarted = true`;
  * `CurrentEpochStartTime = StartTime`, not the block time.

  `CurrentEpochStartHeight` keeps its creation value.
* **rollover.** It fires at a block strictly after
  `CurrentEpochStartTime + Duration`. It sets:
  * `CurrentEpoch` one higher;
  * `CurrentEpochStartTime` to that nominal end, not the block time;
  * `CurrentEpochStartHeight` to the height of the triggering block.

`InitGenesis` stores the genesis records. An unset (zero) `StartTime`
becomes the current block time. The keeper also offers `GetEpochInfo`,
`AllEpochInfos` and `DeleteEpochInfo`.

The behaviour is fixed by `x/epochs/abci_test.go`, because the keeper's own
files are not part of this model. Each transition rule cited below is the
rule that the test's assertions pin down, except where a rule below is
named as the model's choice.

## Layout

* `epochs.dfy`, module `Epochs`, holds the per-record rule, all pure.
  * Data: the `EpochInfo` record, the genesis entry and the transition event.
  * `Step`: the rule for one record.
  * `OnSchedule`: the record invariant. Before counting starts the record is
    in its creation state. After that, `CurrentEpochStartTime` is always
    `StartTime + (CurrentEpoch - 1) * Duration`.
  * `Missed`: how many boundaries a record still owes at a given time.
  * `Run`: the record after a sequence of blocks.
  * Lemmas for each case of the rule and for runs of blocks.
* `keeper.dfy`, module `Keeper`, holds the store.
  * Class `EpochKeeper` has two fields: the record map
    (`map<string, EpochInfo>`) and the store's iteration order.
  * Its methods are `InitGenesis`, `BeginBlocker`, `GetEpochInfo`,
    `AllEpochInfos`, `DeleteEpochInfo` and `DeleteAll`. `DeleteAll` is the
    list-and-delete loop the tests run before each genesis.
  * `BeginBlocker` runs its loop in `EvaluateStore`. That loop is proved
    against `StepAll`, which evaluates every record on its own. Its events
    are proved against `Events`.
* `scenarios.dfy`, module `Scenarios`, holds one method per test case. Each
  builds a keeper, drives the test's blocks through it, and states in its
  `ensures` the exact record the test expects. The events those methods
  state are the model's own, since the test never asserts events.
  `SameIdentifierTwice` and `NonPositiveDuration` match no test case: they
  exercise the model's own genesis refusals.

Instants are integers (nanoseconds on one time line). The value 0 is Go's
zero `time.Time{}`, the "unset" start time.

## Rules the tests fix, and notes on the test

* **Rollover only strictly after the end.** The test at
  `x/epochs/abci_test.go:56-69` evaluates a block exactly 31 days
  (one `Duration`) after the start of epoch 1 and expects no rollover. The
  model therefore rolls over only at a block strictly after
  `CurrentEpochStartTime + Duration`.
* **The comment at line 70.** It speaks of "exactly 1 month", but the case
  after it (line 80) advances 32 days.
* **Lines 96 and 112.** They build a context with height 4 and then drop it,
  so the following `BeginBlocker` runs again at height 3, time `now+32d`.
  `Scenarios.RolloverBlockEvaluatedTwice` models exactly that.
* **One transition per block.** A block applies at most one transition per
  record, even when several boundaries have passed. This is a choice of
  the model: the tests never skip more than one boundary. `RunAtOneTime`
  states how a record that is behind catches up, one boundary per block.
* **Re-evaluating a block is not always a no-op.** Because of the rule
  above, a second block at the same time rolls the record over again when
  a second boundary is still owed. `RerunAtSameTime` gives the exact
  condition; in the test's re-run at lines 96 and 112 none is owed.
* **Events.** The `Started` and `RolledOver` events that `BeginBlocker`
  returns are the model's stand-in for the module's epoch hooks. The test
  never asserts them; the event claims below are the model's own.
* **Genesis failures.** The keeper's code is not part of this model, so
  the failure results `DuplicateIdentifier`, `InvalidDuration` and
  `NotFound` are the model's own. A genesis list is refused as a whole at
  its first entry that has a non-positive duration or an identifier that
  is already stored or used by an earlier entry.

## Model

| member | source | states |
|---|---|---|
| Epochs.NewEpochInfo | x/epochs/abci_test.go:133-152 | a genesis record keeps the supplied identifier, start height and duration; an unset start time becomes the block time; the record begins in epoch 0, not counting, and on schedule |
| Epochs.Step | x/epochs/abci_test.go:31-116 | identifier, start height, start time and duration never change; counting has started after a block iff it had before or the start time is reached; the record changes iff a first start or a rollover is due; the epoch's start height can only change to the triggering block's height |
| Epochs.EventOf | x/epochs/abci_test.go:77-83 | a block reports an event for a record iff the record changes; the event carries the record's identifier and new epoch number, and is `Started` iff counting had not begun |
| Epochs.NoPrematureStart | x/epochs/abci_test.go:199-208 | before the start time a block leaves the record unchanged, whatever its height |
| Epochs.FirstStart | x/epochs/abci_test.go:210-219 | at or after the start time (equality suffices), epoch 1 begins at the start time itself, counting is on, and the epoch's start height stays the creation height |
| Epochs.NoRolloverUpToEnd | x/epochs/abci_test.go:56-69 | a block at or before the nominal end of the current epoch changes nothing |
| Epochs.Rollover | x/epochs/abci_test.go:71-83 | a block strictly after the nominal end advances the epoch by one, starts it at previous start + duration (not the block time), and records the triggering height |
| Epochs.UnsetStartCountsFromGenesis | x/epochs/abci_test.go:31-43 | a genesis entry with an unset start time starts epoch 1 at the genesis time at the first block, keeping the genesis height |
| Epochs.StepKeepsSchedule | x/epochs/abci_test.go:150-157 | every block keeps the record invariant: epoch start = start time + (epoch - 1) * duration once counting, creation state before, creation height until the first rollover |
| Epochs.StepAdvancesAtMostOne | x/epochs/abci_test.go:77-83 | a block never lowers the epoch number and raises it by at most one |
| Epochs.StepNeverAhead | x/epochs/abci_test.go:71-74 | if the current epoch did not start after the block time, it still does not after the block: boundaries never fire early |
| Epochs.RerunAtSameTime | x/epochs/abci_test.go:85-116 | evaluating a second block at the same time changes nothing exactly when the first left no boundary owed (t within 2 durations of the old epoch start, or within the first epoch after a first start) |
| Epochs.MissedBounds | x/epochs/abci_test.go:71-83 | the owed count n satisfies start + n*duration < t (when n > 0) and t <= start + (n+1)*duration |
| Epochs.MissedUnique | x/epochs/abci_test.go:71-83 | any count meeting those bounds is the owed count |
| Epochs.StepPaysOneBoundary | x/epochs/abci_test.go:77-83 | a started record changes iff it owes a boundary, and a rollover pays exactly one |
| Epochs.RunKeepsSchedule | x/epochs/abci_test.go:150-157 | over any run of blocks: the invariant holds, the schedule fields stay fixed, the epoch never decreases, grows by at most the number of blocks, and counting never stops |
| Epochs.RunBeforeStart | x/epochs/abci_test.go:193-208 | blocks before the start time leave an unstarted record untouched, whatever their heights |
| Epochs.RunNeverAhead | x/epochs/abci_test.go:71-83 | with non-decreasing block times, the current epoch never starts after the last block evaluated |
| Epochs.RunAtOneTime | x/epochs/abci_test.go:85-116 | blocks at one time t advance a started record one epoch per block until nothing is owed, then leave it; its start moves by whole durations only |
| Keeper.Without | x/epochs/abci_test.go:126-128 | removing an identifier from the order keeps exactly the other identifiers and keeps the order duplicate-free; an absent identifier leaves the order as it was |
| Keeper.WithoutFirst | x/epochs/abci_test.go:126-128 | deleting the first listed identifier leaves the rest of the list |
| Keeper.GenesisError | x/epochs/abci_test.go:133-146 | a refusal is either `InvalidDuration` naming an entry with a non-positive duration, or `DuplicateIdentifier` naming an entry whose identifier is already stored or used by an earlier entry |
| Keeper.GenesisErrorFirstBad | x/epochs/abci_test.go:133-146 | when every entry before `k` can be stored and entry `k` cannot, the refusal names entry `k`: `InvalidDuration` if its duration is not positive, `DuplicateIdentifier` otherwise |
| Keeper.GenesisErrorIff | x/epochs/abci_test.go:133-146 | a genesis list is accepted iff every duration is positive and every identifier is new to the store and unique in the list |
| Keeper.CreatedEntries | x/epochs/abci_test.go:133-146 | a genesis list with distinct identifiers creates a record for exactly its identifiers, each entry's record being the one created from that entry |
| Keeper.AddGenesis | x/epochs/abci_test.go:133-146 | storing an accepted genesis list adds exactly the created records and appends their identifiers, keeping the store well-formed |
| Keeper.EvaluateStore | x/epochs/abci_test.go:39-41 | evaluating the records one at a time in store order, writing back only those that change, yields every record stepped on its own, and the events of the changed records in that order |
| Keeper.RecordsIndependent | x/epochs/abci_test.go:39-41 | evaluating a block treats each record on its own: changing one record beforehand changes only that record afterwards |
| Keeper.StepAllKeepsWellFormed | x/epochs/abci_test.go:39-41 | evaluating a block keeps every record on its own key and on schedule |
| Keeper.Events | x/epochs/abci_test.go:39-41 | a block emits at most one event per stored record |
| Keeper.EventsExactlyChanged | x/epochs/abci_test.go:39-41 | the events of a block name each changed record exactly once, each carrying that record's own transition, and name nothing else |
| Keeper.EpochKeeper.constructor | x/epochs/abci_test.go:120-121 | a new keeper has an empty store |
| Keeper.EpochKeeper.InitGenesis | x/epochs/abci_test.go:133-146 | an acceptable genesis list adds one created record per entry (unset start time replaced by the block time; see `Keeper.CreatedEntries`); otherwise the error is returned and the store is unchanged |
| Keeper.EpochKeeper.BeginBlocker | x/epochs/abci_test.go:39-41 | the new store is every record stepped on its own, the order is unchanged, and the events are those of the changed records in store order |
| Keeper.EpochKeeper.GetEpochInfo | x/epochs/abci_test.go:193 | returns the stored record iff the identifier is present, otherwise `NotFound` |
| Keeper.EpochKeeper.AllEpochInfos | x/epochs/abci_test.go:125 | returns every stored record, in store order |
| Keeper.EpochKeeper.DeleteEpochInfo | x/epochs/abci_test.go:127 | removes exactly the given record and its place in the order, or reports `NotFound` without change |
| Keeper.EpochKeeper.DeleteAll | x/epochs/abci_test.go:125-128 | listing every record and deleting each leaves an empty store |
| Scenarios.SetUp | x/epochs/abci_test.go:119-146 | after the defaults are deleted and the genesis entry applied, the store holds exactly the entry's created record |
| Scenarios.OneSecondAfterGenesis | x/epochs/abci_test.go:31-55 | one block at now+1s (height 2): epoch 1, started at now, start height 1, counting on, one `Started` event |
| Scenarios.ExactlyOneDurationLater | x/epochs/abci_test.go:56-69 | a further block at exactly now+31d (height 3): still epoch 1 from now at height 1, no event |
| Scenarios.PastOneDuration | x/epochs/abci_test.go:71-84 | a further block at now+32d (height 3): epoch 2, started at now+31d, start height 3, one `RolledOver` event numbered 2 |
| Scenarios.RolloverBlockEvaluatedTwice | x/epochs/abci_test.go:85-116 | evaluating the rollover block's context again leaves epoch 2 from now+31d at height 3, with no event |
| Scenarios.StartingOneMonthAfterGenesis | x/epochs/abci_test.go:161-220 | start at now+30d: epoch 0, unset start time and creation height at genesis and after a week; at now+30d, epoch 1 from now+30d with the creation height kept |
| Scenarios.SameIdentifierTwice | x/epochs/abci_test.go:133-146 | a second genesis entry with a stored identifier is refused with `DuplicateIdentifier`, and the first record is still the one read back (the model's own failure path; the test only makes the accepted call) |
| Scenarios.NonPositiveDuration | x/epochs/abci_test.go:133-146 | a genesis entry with a non-positive duration is refused with `InvalidDuration` naming it, and the store lists no record (the model's own failure path; the test only makes the accepted call) |

## Left out

- x/gamm/handler.go: message dispatch to the pool service. It only routes messages to code that is not part of this model.
- The keeper's own Go files (keeper, genesis, abci) are not part of this model. Their behaviour is taken from what `x/epochs/abci_test.go` asserts, and the failure results `DuplicateIdentifier`, `InvalidDuration` and `NotFound` are the model's own choice.
- Epochs.NewEpochInfo: only the identifier, start height, start time and duration are taken from a genesis entry. `CurrentEpoch`, `CurrentEpochStartHeight`, `CurrentEpochStartTime` and `EpochCountingStarted` always get their creation values (0, the start height, unset, false), which are the values the test passes at lines 134-144 and 179-188. A genesis record that has already started cannot be brought in.
- Keeper.EpochKeeper.GetEpochInfo: returns `NotFound` for a missing identifier. It is never asked for one in the tests, and the Go getter's zero-value return is not modelled.
- `simapp.Setup` and its default genesis: the default entries are a parameter of `Scenarios.SetUp`. They are applied at the unset time and deleted before the test's own genesis.
- `time.Now()`: the test's `now` is a parameter. `.UTC().String()` comparisons become integer equality.
- The unset start time is the value 0, as Go's zero `time.Time{}` is. It is not an `Option`.
- Store iteration order: the model keeps insertion order, and deletion keeps the relative order of the rest. The Go store iterates in key-byte order. The events' order follows the model's order.
- Epoch hooks, logging and telemetry are not modelled. The transition events returned by `BeginBlocker` stand in for them.
- 64-bit limits on heights, epoch numbers and `time.Duration` arithmetic: integers are unbounded and no overflow is modelled.

/** The block sequences that `x/epochs/abci_test.go` drives through the
    keeper, with the records and events they must produce. Each method
    builds its own keeper, so nothing outside it changes.
 */
module Scenarios {
  import opened Epochs
  import opened Keeper

  const Monthly: string := "monthly"

  /** The test's genesis entry: "monthly", created at height 1. */
  function MonthlyGenesis(startTime: Time, duration: int): (g: GenesisEpoch) {
    GenesisEpoch(Monthly, 1, startTime, duration)
  }

  /** A fresh app: the default genesis is applied (at a block that carries
      no time), every default record is listed and deleted, and the given
      entry is applied at height 1 and time `now`. */
  method SetUp(defaults: seq<GenesisEpoch>, now: Time, entry: GenesisEpoch) returns (k: EpochKeeper)
    requires entry.duration > 0
    ensures fresh(k) && k.Valid()
    ensures k.epochs == map[entry.identifier := NewEpochInfo(entry, now)]
    ensures k.order == [entry.identifier]
  {
    k := new EpochKeeper();
    var _ := k.InitGenesis(UnsetTime, defaults);
    k.DeleteAll();
    var err := k.InitGenesis(now, [entry]);
    assert Identifiers([entry]) == [entry.identifier];
  }

  /** Reads the "monthly" record back, as the test does after each block. */
  method ReadMonthly(k: EpochKeeper) returns (info: EpochInfo)
    requires k.Valid() && Monthly in k.epochs
    ensures info == k.epochs[Monthly]
  {
    var r := k.GetEpochInfo(Monthly);
    info := r.value;
  }

  /** A block one second after genesis starts epoch 1 at the genesis time,
      keeping height 1 as the epoch's start height. */
  method OneSecondAfterGenesis(defaults: seq<GenesisEpoch>, now: Time) returns (info: EpochInfo, events: seq<EpochEvent>)
    ensures info == EpochInfo(Monthly, 1, now, 31 * Day, 1, 1, now, true)
    ensures events == [EpochEvent(Monthly, Started, 1)]
  {
    var k := SetUp(defaults, now, MonthlyGenesis(UnsetTime, 31 * Day));
    events := k.BeginBlocker(2, now + Second);
    info := ReadMonthly(k);
  }

  /** A block exactly one duration after the start of epoch 1 does not roll
      over: the end instant itself still belongs to epoch 1. */
  method ExactlyOneDurationLater(defaults: seq<GenesisEpoch>, now: Time) returns (info: EpochInfo, events: seq<EpochEvent>)
    ensures info == EpochInfo(Monthly, 1, now, 31 * Day, 1, 1, now, true)
    ensures events == []
  {
    var k := SetUp(defaults, now, MonthlyGenesis(UnsetTime, 31 * Day));
    var _ := k.BeginBlocker(2, now + Second);
    events := k.BeginBlocker(3, now + 31 * Day);
    info := ReadMonthly(k);
  }

  /** A block a day after the end of epoch 1 rolls over to epoch 2, which
      starts at the nominal end (genesis + 31 days), at height 3. */
  method PastOneDuration(defaults: seq<GenesisEpoch>, now: Time) returns (info: EpochInfo, events: seq<EpochEvent>)
    ensures info == EpochInfo(Monthly, 1, now, 31 * Day, 2, 3, now + 31 * Day, true)
    ensures events == [EpochEvent(Monthly, RolledOver, 2)]
  {
    var k := SetUp(defaults, now, MonthlyGenesis(UnsetTime, 31 * Day));
    var _ := k.BeginBlocker(2, now + Second);
    events := k.BeginBlocker(3, now + 32 * Day);
    info := ReadMonthly(k);
  }

  /** The test's third call reuses the context of the rollover block (the
      context with height 4 is built and dropped), so the rollover block is
      evaluated twice; the second evaluation changes nothing. */
  method RolloverBlockEvaluatedTwice(defaults: seq<GenesisEpoch>, now: Time) returns (info: EpochInfo, events: seq<EpochEvent>)
    ensures info == EpochInfo(Monthly, 1, now, 31 * Day, 2, 3, now + 31 * Day, true)
    ensures events == []
  {
    var k := SetUp(defaults, now, MonthlyGenesis(UnsetTime, 31 * Day));
    var _ := k.BeginBlocker(2, now + Second);
    var _ := k.BeginBlocker(3, now + 32 * Day);
    events := k.BeginBlocker(3, now + 32 * Day);
    info := ReadMonthly(k);
  }

  /** An epoch whose start time is 30 days after genesis: not started at
      genesis nor a week later (epoch 0, unset start time, creation height),
      and started by the block exactly at the start time, with epoch 1
      beginning at the start time and the creation height kept. */
  method StartingOneMonthAfterGenesis(defaults: seq<GenesisEpoch>, now: Time)
    returns (atGenesis: EpochInfo, afterWeek: EpochInfo, afterMonth: EpochInfo)
    requires now + 30 * Day != UnsetTime
    ensures atGenesis == EpochInfo(Monthly, 1, now + 30 * Day, 30 * Day, 0, 1, UnsetTime, false)
    ensures afterWeek == atGenesis
    ensures afterMonth == EpochInfo(Monthly, 1, now + 30 * Day, 30 * Day, 1, 1, now + 30 * Day, true)
  {
    var month := 30 * Day;
    var k := SetUp(defaults, now, MonthlyGenesis(now + month, month));
    atGenesis := ReadMonthly(k);
    var _ := k.BeginBlocker(2, now + 7 * Day);
    afterWeek := ReadMonthly(k);
    var _ := k.BeginBlocker(3, now + month);
    afterMonth := ReadMonthly(k);
  }

  // ---------------------------------------------------------------------
  // Genesis entries that cannot be stored

  /** Creating an identifier that is already stored is refused with
      `DuplicateIdentifier`, and the first record stays as it was. */
  method SameIdentifierTwice(now: Time, first: GenesisEpoch, second: GenesisEpoch)
    returns (err: Option<Error>, info: Result<EpochInfo>)
    requires first.duration > 0 && second.duration > 0
    requires second.identifier == first.identifier
    ensures err == Some(DuplicateIdentifier(first.identifier))
    ensures info == Ok(NewEpochInfo(first, now))
  {
    var k := new EpochKeeper();
    var _ := k.InitGenesis(now, [first]);
    assert Identifiers([first]) == [first.identifier];
    assert k.epochs.Keys == {first.identifier};
    err := k.InitGenesis(now, [second]);
    info := k.GetEpochInfo(first.identifier);
  }

  /** A genesis entry whose duration is not positive is refused with
      `InvalidDuration` naming it, and no record is created. */
  method NonPositiveDuration(now: Time, entry: GenesisEpoch)
    returns (err: Option<Error>, infos: seq<EpochInfo>)
    requires entry.duration <= 0
    ensures err == Some(InvalidDuration(entry.identifier))
    ensures infos == []
  {
    var k := new EpochKeeper();
    err := k.InitGenesis(now, [entry]);
    infos := k.AllEpochInfos();
  }
}

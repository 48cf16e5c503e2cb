/** Epoch records of the `x/epochs` module and the rule that advances one
    record at the start of a block.

    Instants are integers (nanoseconds on one fixed time line). The value 0
    stands for Go's zero `time.Time{}`, which the module uses as "unset".
 */
module Epochs {

  type Time = int
  type Height = int

  /** Go's `time.Time{}`: a start time the caller left unset. */
  const UnsetTime: Time := 0

  const Second: int := 1_000_000_000
  const Hour: int := 3600 * Second
  const Day: int := 24 * Hour

  datatype Option<T> = None | Some(value: T)

  datatype Error =
    | DuplicateIdentifier(id: string)
    | InvalidDuration(id: string)
    | NotFound(id: string)

  datatype Result<T> = Ok(value: T) | Err(error: Error)

  /** One stored epoch record, keyed by its identifier. */
  datatype EpochInfo = EpochInfo(
    identifier: string,
    startHeight: Height,
    startTime: Time,
    duration: int,
    currentEpoch: nat,
    currentEpochStartHeight: Height,
    currentEpochStartTime: Time,
    epochCountingStarted: bool)

  /** What a genesis entry supplies; the remaining fields of a new record
      always hold their initial values. */
  datatype GenesisEpoch = GenesisEpoch(
    identifier: string,
    startHeight: Height,
    startTime: Time,
    duration: int)

  datatype TransitionKind = Started | RolledOver

  /** The signal emitted when a record changes in a block. */
  datatype EpochEvent = EpochEvent(identifier: string, kind: TransitionKind, epochNumber: nat)

  /** One evaluation point: the height and time of a block. */
  datatype Block = Block(height: Height, time: Time)

  // ---------------------------------------------------------------------
  // Invariant of a record

  /** A record is on its schedule: before counting starts it is in its
      creation state; afterwards the current epoch began exactly
      `currentEpoch - 1` whole durations after the start time; and as long
      as no rollover happened the current epoch's start height is the
      creation height. */
  predicate OnSchedule(e: EpochInfo) {
    && e.duration > 0
    && (if e.epochCountingStarted then
          && e.currentEpoch >= 1
          && e.currentEpochStartTime == e.startTime + (e.currentEpoch - 1) * e.duration
        else
          && e.currentEpoch == 0
          && e.currentEpochStartTime == UnsetTime)
    && (e.currentEpoch <= 1 ==> e.currentEpochStartHeight == e.startHeight)
  }

  /** The fields that no evaluation changes. */
  predicate SameSchedule(e: EpochInfo, r: EpochInfo) {
    && r.identifier == e.identifier
    && r.startHeight == e.startHeight
    && r.startTime == e.startTime
    && r.duration == e.duration
  }

  // ---------------------------------------------------------------------
  // Creation

  /** The record stored for a genesis entry at a block of time `blockTime`:
      an unset start time means "counting begins now". */
  function NewEpochInfo(g: GenesisEpoch, blockTime: Time): (r: EpochInfo)
    ensures r.identifier == g.identifier && r.startHeight == g.startHeight && r.duration == g.duration
    ensures r.startTime == (if g.startTime == UnsetTime then blockTime else g.startTime)
    ensures !r.epochCountingStarted && r.currentEpoch == 0
    ensures g.duration > 0 ==> OnSchedule(r)
  {
    EpochInfo(
      g.identifier,
      g.startHeight,
      if g.startTime == UnsetTime then blockTime else g.startTime,
      g.duration,
      0,
      g.startHeight,
      UnsetTime,
      false)
  }

  // ---------------------------------------------------------------------
  // The transition rule

  /** The nominal end of the current epoch. */
  function EpochEndTime(e: EpochInfo): (endTime: Time) {
    e.currentEpochStartTime + e.duration
  }

  /** Counting has not begun and the start time is reached (equality is enough). */
  predicate ShouldStart(e: EpochInfo, t: Time) {
    !e.epochCountingStarted && e.startTime <= t
  }

  /** Counting has begun and the block is strictly after the current epoch's end. */
  predicate ShouldRollOver(e: EpochInfo, t: Time) {
    e.epochCountingStarted && t > EpochEndTime(e)
  }

  /** The record after the evaluation of a block at `height` and `t`. At most
      one transition is applied, however many boundaries lie before `t`. */
  function Step(e: EpochInfo, height: Height, t: Time): (r: EpochInfo)
    ensures SameSchedule(e, r)
    ensures r.epochCountingStarted <==> e.epochCountingStarted || e.startTime <= t
    ensures r != e <==> ShouldStart(e, t) || ShouldRollOver(e, t)
    ensures r.currentEpochStartHeight != e.currentEpochStartHeight ==> r.currentEpochStartHeight == height
  {
    if ShouldStart(e, t) then
      e.(currentEpoch := 1, epochCountingStarted := true, currentEpochStartTime := e.startTime)
    else if ShouldRollOver(e, t) then
      e.(currentEpoch := e.currentEpoch + 1,
         currentEpochStartTime := EpochEndTime(e),
         currentEpochStartHeight := height)
    else
      e
  }

  /** The event emitted for a record in a block, if the record changes. */
  function EventOf(e: EpochInfo, height: Height, t: Time): (ev: Option<EpochEvent>)
    ensures ev.Some? <==> Step(e, height, t) != e
    ensures ev.Some? ==> ev.value.identifier == e.identifier
    ensures ev.Some? ==> ev.value.epochNumber == Step(e, height, t).currentEpoch
    ensures ev.Some? ==> (ev.value.kind == Started <==> !e.epochCountingStarted)
  {
    if ShouldStart(e, t) then Some(EpochEvent(e.identifier, Started, 1))
    else if ShouldRollOver(e, t) then Some(EpochEvent(e.identifier, RolledOver, e.currentEpoch + 1))
    else None
  }

  // ---------------------------------------------------------------------
  // The four cases of the rule

  /** Before the start time nothing changes, whatever the height. */
  lemma NoPrematureStart(e: EpochInfo, height: Height, t: Time)
    requires !e.epochCountingStarted && t < e.startTime
    ensures Step(e, height, t) == e
  {
  }

  /** The first start: epoch 1, begun at the start time itself (not at the
      block time), with the creation height kept. */
  lemma FirstStart(e: EpochInfo, height: Height, t: Time)
    requires !e.epochCountingStarted && e.startTime <= t
    ensures var r := Step(e, height, t);
      && r.currentEpoch == 1
      && r.epochCountingStarted
      && r.currentEpochStartTime == e.startTime
      && r.currentEpochStartHeight == e.currentEpochStartHeight
  {
  }

  /** A block up to and including the nominal end changes nothing. */
  lemma NoRolloverUpToEnd(e: EpochInfo, height: Height, t: Time)
    requires e.epochCountingStarted && t <= EpochEndTime(e)
    ensures Step(e, height, t) == e
  {
  }

  /** A rollover: one more epoch, begun at the nominal end (not at the block
      time), with the triggering height recorded. */
  lemma Rollover(e: EpochInfo, height: Height, t: Time)
    requires e.epochCountingStarted && t > EpochEndTime(e)
    ensures var r := Step(e, height, t);
      && r.currentEpoch == e.currentEpoch + 1
      && r.epochCountingStarted
      && r.currentEpochStartTime == e.currentEpochStartTime + e.duration
      && r.currentEpochStartHeight == height
  {
  }

  /** A genesis entry without a start time starts counting at the first
      block at or after genesis, with the genesis time as the start of
      epoch 1 and the genesis height kept. */
  lemma UnsetStartCountsFromGenesis(g: GenesisEpoch, genesisTime: Time, height: Height, t: Time)
    requires g.startTime == UnsetTime && genesisTime <= t
    ensures var r := Step(NewEpochInfo(g, genesisTime), height, t);
      && r.currentEpoch == 1
      && r.currentEpochStartTime == genesisTime
      && r.currentEpochStartHeight == g.startHeight
  {
  }

  // ---------------------------------------------------------------------
  // Invariants kept by one evaluation

  /** The schedule invariant survives every evaluation. */
  lemma StepKeepsSchedule(e: EpochInfo, height: Height, t: Time)
    requires OnSchedule(e)
    ensures OnSchedule(Step(e, height, t))
  {
  }

  /** The epoch number never decreases and grows by at most one per block. */
  lemma StepAdvancesAtMostOne(e: EpochInfo, height: Height, t: Time)
    requires OnSchedule(e)
    ensures var r := Step(e, height, t);
      e.currentEpoch <= r.currentEpoch <= e.currentEpoch + 1
  {
  }

  /** The current epoch never begins after the block that is being
      evaluated: boundaries are not fired early. */
  lemma StepNeverAhead(e: EpochInfo, height: Height, t: Time)
    requires e.epochCountingStarted ==> e.currentEpochStartTime <= t
    ensures var r := Step(e, height, t);
      r.epochCountingStarted ==> r.currentEpochStartTime <= t
  {
  }

  /** Evaluating a second block at the same time changes nothing exactly
      when the first evaluation left no boundary behind: after a start,
      when `t` is within the first epoch; after a rollover, when `t` is
      within the next one. */
  lemma RerunAtSameTime(e: EpochInfo, h1: Height, h2: Height, t: Time)
    requires OnSchedule(e)
    ensures var r := Step(e, h1, t);
      Step(r, h2, t) == r <==>
        if e.epochCountingStarted then t <= e.currentEpochStartTime + 2 * e.duration
        else t < e.startTime || t <= e.startTime + e.duration
  {
  }

  // ---------------------------------------------------------------------
  // Boundaries behind schedule

  /** How many boundaries `start + k * duration` (k >= 1) lie strictly
      before `t`: the rollovers a started record still owes at time `t`. */
  function Missed(start: Time, duration: int, t: Time): (n: nat)
    requires duration > 0
    decreases t - start
  {
    if t > start + duration then 1 + Missed(start + duration, duration, t) else 0
  }

  /** `Missed` counts exactly the boundaries before `t`. */
  lemma {:induction false} MissedBounds(start: Time, duration: int, t: Time)
    requires duration > 0
    ensures var n := Missed(start, duration, t);
      && t <= start + (n + 1) * duration
      && (n > 0 ==> start + n * duration < t)
    decreases t - start
  {
    if t > start + duration {
      var n := Missed(start + duration, duration, t);
      MissedBounds(start + duration, duration, t);
      assert start + duration + (n + 1) * duration == start + (n + 2) * duration;
      assert start + duration + n * duration == start + (n + 1) * duration;
    }
  }

  /** The bounds of `MissedBounds` single out one count. */
  lemma MissedUnique(start: Time, duration: int, t: Time, k: nat)
    requires duration > 0
    requires t <= start + (k + 1) * duration
    requires k > 0 ==> start + k * duration < t
    ensures k == Missed(start, duration, t)
  {
    var n := Missed(start, duration, t);
    MissedBounds(start, duration, t);
    if k < n {
      MulMono(k + 1, n, duration);
    } else if n < k {
      MulMono(n + 1, k, duration);
    }
  }

  /** Adding one duration to a start moved by `k` durations moves it by
      `k + 1`. */
  lemma OneMoreDuration(start: Time, duration: int, k: int)
    ensures start + duration + k * duration == start + (k + 1) * duration
  {
  }

  /** Multiplying by a positive duration keeps the order of two counts. */
  lemma MulMono(a: int, b: int, d: int)
    requires a <= b && d > 0
    ensures a * d <= b * d
  {
  }

  /** A started record rolls over exactly when it owes a boundary, and the
      rollover pays exactly one. */
  lemma StepPaysOneBoundary(e: EpochInfo, height: Height, t: Time)
    requires e.epochCountingStarted && e.duration > 0
    ensures var r := Step(e, height, t);
      var n := Missed(e.currentEpochStartTime, e.duration, t);
      && (n == 0 ==> r == e)
      && (n > 0 ==> r.currentEpoch == e.currentEpoch + 1
                    && Missed(r.currentEpochStartTime, r.duration, t) == n - 1)
  {
  }

  // ---------------------------------------------------------------------
  // Runs of blocks

  /** The record after evaluating the blocks in order. */
  function Run(e: EpochInfo, blocks: seq<Block>): (r: EpochInfo)
    decreases |blocks|
  {
    if blocks == [] then e else Run(Step(e, blocks[0].height, blocks[0].time), blocks[1..])
  }

  /** Over any run: the schedule invariant holds, the schedule fields are
      fixed, the epoch number never decreases and grows by at most the
      number of blocks, and counting never stops once started. */
  lemma {:induction false} RunKeepsSchedule(e: EpochInfo, blocks: seq<Block>)
    requires OnSchedule(e)
    ensures var r := Run(e, blocks);
      && OnSchedule(r)
      && SameSchedule(e, r)
      && e.currentEpoch <= r.currentEpoch <= e.currentEpoch + |blocks|
      && (e.epochCountingStarted ==> r.epochCountingStarted)
    decreases |blocks|
  {
    if blocks != [] {
      StepKeepsSchedule(e, blocks[0].height, blocks[0].time);
      RunKeepsSchedule(Step(e, blocks[0].height, blocks[0].time), blocks[1..]);
    }
  }

  /** Blocks before the start time leave a record that has not started
      untouched, whatever their heights. */
  lemma {:induction false} RunBeforeStart(e: EpochInfo, blocks: seq<Block>)
    requires !e.epochCountingStarted
    requires forall i :: 0 <= i < |blocks| ==> blocks[i].time < e.startTime
    ensures Run(e, blocks) == e
    decreases |blocks|
  {
    if blocks != [] {
      RunBeforeStart(e, blocks[1..]);
    }
  }

  /** Times that do not go backwards: the current epoch's start is never
      later than the last block evaluated. */
  lemma {:induction false} RunNeverAhead(e: EpochInfo, t0: Time, blocks: seq<Block>)
    requires e.epochCountingStarted ==> e.currentEpochStartTime <= t0
    requires forall i :: 0 <= i < |blocks| ==> t0 <= blocks[i].time
    requires forall i, j :: 0 <= i < j < |blocks| ==> blocks[i].time <= blocks[j].time
    ensures var r := Run(e, blocks);
      r.epochCountingStarted ==>
        r.currentEpochStartTime <= (if blocks == [] then t0 else blocks[|blocks| - 1].time)
    decreases |blocks|
  {
    if blocks != [] {
      var b := blocks[0];
      StepNeverAhead(e, b.height, b.time);
      RunNeverAhead(Step(e, b.height, b.time), b.time, blocks[1..]);
    }
  }

  /** Catching up, one boundary per block: a started record evaluated in
      blocks that all carry time `t` advances by one epoch per block until
      it owes nothing, and then stays put. Its start time moves only by
      whole durations. */
  lemma {:induction false} RunAtOneTime(e: EpochInfo, t: Time, blocks: seq<Block>)
    requires e.epochCountingStarted && e.duration > 0
    requires forall i :: 0 <= i < |blocks| ==> blocks[i].time == t
    ensures var n := Missed(e.currentEpochStartTime, e.duration, t);
      var k := if |blocks| < n then |blocks| else n;
      var r := Run(e, blocks);
      && r.epochCountingStarted && r.duration == e.duration
      && r.currentEpoch == e.currentEpoch + k
      && r.currentEpochStartTime == e.currentEpochStartTime + k * e.duration
      && Missed(r.currentEpochStartTime, r.duration, t) == n - k
    decreases |blocks|
  {
    if blocks != [] {
      var b := blocks[0];
      var n := Missed(e.currentEpochStartTime, e.duration, t);
      StepPaysOneBoundary(e, b.height, t);
      if n == 0 {
        RunAtOneTime(e, t, blocks[1..]);
      } else {
        RunAtOneTime(Step(e, b.height, t), t, blocks[1..]);
        var k' := if |blocks| - 1 < n - 1 then |blocks| - 1 else n - 1;
        OneMoreDuration(e.currentEpochStartTime, e.duration, k');
      }
    }
  }
}

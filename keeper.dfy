/** The epochs keeper: the keyed store of epoch records, genesis, the
    per-block evaluation of every record, lookup, listing and deletion.
 */
module Keeper {
  import opened Epochs

  /** No identifier occurs twice. */
  predicate Distinct(s: seq<string>) {
    forall i, j :: 0 <= i < j < |s| ==> s[i] != s[j]
  }

  /** A store and its iteration order agree: every key once, every record
      under its own identifier and on its schedule. */
  ghost predicate WellFormed(m: map<string, EpochInfo>, order: seq<string>) {
    && Distinct(order)
    && (forall id :: id in order <==> id in m)
    && (forall id :: id in m ==> m[id].identifier == id && OnSchedule(m[id]))
  }

  /** The order with one identifier taken out, the others keeping their places. */
  function Without(s: seq<string>, x: string): (r: seq<string>)
    ensures forall y :: y in r <==> y in s && y != x
    ensures Distinct(s) ==> Distinct(r)
    ensures x !in s ==> r == s
  {
    if s == [] then []
    else if s[0] == x then Without(s[1..], x)
    else
      var rest := Without(s[1..], x);
      assert Distinct(s) ==> Distinct([s[0]] + rest) by {
        if Distinct(s) {
          assert s[0] !in s[1..];
          forall i, j | 0 <= i < j < |rest| + 1
            ensures ([s[0]] + rest)[i] != ([s[0]] + rest)[j]
          {
            assert ([s[0]] + rest)[j] == rest[j - 1];
            if i > 0 {
              assert ([s[0]] + rest)[i] == rest[i - 1];
            }
          }
        }
      }
      [s[0]] + rest
  }

  /** Removing the first identifier of a duplicate-free order drops exactly
      that element. */
  lemma WithoutFirst(s: seq<string>)
    requires Distinct(s) && s != []
    ensures Without(s, s[0]) == s[1..]
  {
  }

  // ---------------------------------------------------------------------
  // Genesis

  /** The identifiers of a genesis list, in list order. */
  function Identifiers(gs: seq<GenesisEpoch>): (ids: seq<string>)
    ensures |ids| == |gs|
  {
    seq(|gs|, i requires 0 <= i < |gs| => gs[i].identifier)
  }

  /** The first reason, in list order, to refuse a genesis list over a
      store that already holds `existing`. An `InvalidDuration` names an
      entry with a non-positive duration; a `DuplicateIdentifier` names an
      identifier that is already stored or that an earlier entry uses. */
  function GenesisError(existing: set<string>, gs: seq<GenesisEpoch>): (err: Option<Error>)
    ensures err.Some? ==> err.value.InvalidDuration? || err.value.DuplicateIdentifier?
    ensures err.Some? && err.value.InvalidDuration? ==>
      exists i :: 0 <= i < |gs| && gs[i].identifier == err.value.id && gs[i].duration <= 0
    ensures err.Some? && err.value.DuplicateIdentifier? ==>
      exists i :: 0 <= i < |gs| && gs[i].identifier == err.value.id &&
        (err.value.id in existing || exists j :: 0 <= j < i && gs[j].identifier == err.value.id)
    decreases |gs|
  {
    if gs == [] then None
    else if gs[0].duration <= 0 then Some(InvalidDuration(gs[0].identifier))
    else if gs[0].identifier in existing then Some(DuplicateIdentifier(gs[0].identifier))
    else
      var err := GenesisError(existing + {gs[0].identifier}, gs[1..]);
      assert err.Some? && err.value.InvalidDuration? ==>
        exists i :: 0 <= i < |gs| && gs[i].identifier == err.value.id && gs[i].duration <= 0 by {
        if err.Some? && err.value.InvalidDuration? {
          var i :| 0 <= i < |gs[1..]| && gs[1..][i].identifier == err.value.id && gs[1..][i].duration <= 0;
          assert gs[i + 1] == gs[1..][i];
        }
      }
      assert err.Some? && err.value.DuplicateIdentifier? ==>
        exists i :: 0 <= i < |gs| && gs[i].identifier == err.value.id &&
          (err.value.id in existing || exists j :: 0 <= j < i && gs[j].identifier == err.value.id) by {
        if err.Some? && err.value.DuplicateIdentifier? {
          var id := err.value.id;
          var i :| 0 <= i < |gs[1..]| && gs[1..][i].identifier == id &&
            (id in existing + {gs[0].identifier} || exists j :: 0 <= j < i && gs[1..][j].identifier == id);
          assert gs[i + 1] == gs[1..][i];
          if id !in existing {
            if id == gs[0].identifier {
              assert gs[0].identifier == id;
            } else {
              var j :| 0 <= j < i && gs[1..][j].identifier == id;
              assert gs[j + 1] == gs[1..][j];
            }
          }
        }
      }
      err
  }

  /** The error names the first entry that cannot be stored. If every
      entry before `k` can be stored and entry `k` cannot, the list is
      refused for entry `k`: with `InvalidDuration` when its duration is
      not positive, and otherwise with `DuplicateIdentifier`, because its
      identifier is already stored or used by an earlier entry. */
  lemma {:induction false} GenesisErrorFirstBad(existing: set<string>, gs: seq<GenesisEpoch>, k: nat)
    requires k < |gs|
    requires forall i :: 0 <= i < k ==> gs[i].duration > 0 && gs[i].identifier !in existing
    requires forall i, j :: 0 <= i < j < k ==> gs[i].identifier != gs[j].identifier
    requires || gs[k].duration <= 0
             || gs[k].identifier in existing
             || exists i :: 0 <= i < k && gs[i].identifier == gs[k].identifier
    ensures GenesisError(existing, gs) == Some(
      if gs[k].duration <= 0 then InvalidDuration(gs[k].identifier)
      else DuplicateIdentifier(gs[k].identifier))
    decreases k
  {
    if k > 0 {
      var id := gs[0].identifier;
      var tail := gs[1..];
      assert forall i :: 0 <= i < |tail| ==> tail[i] == gs[i + 1];
      assert forall i :: 1 <= i < k ==> gs[i].identifier != id;
      if gs[k].duration > 0 && gs[k].identifier !in existing + {id} {
        var i :| 0 <= i < k && gs[i].identifier == gs[k].identifier;
        assert tail[i - 1].identifier == tail[k - 1].identifier;
      }
      GenesisErrorFirstBad(existing + {id}, tail, k - 1);
    }
  }

  /** A genesis list is acceptable: positive durations, identifiers new to
      the store and pairwise different. */
  predicate GenesisOk(existing: set<string>, gs: seq<GenesisEpoch>) {
    && (forall i :: 0 <= i < |gs| ==> gs[i].duration > 0 && gs[i].identifier !in existing)
    && Distinct(Identifiers(gs))
  }

  /** `GenesisError` refuses exactly the lists that are not acceptable. */
  lemma {:induction false} GenesisErrorIff(existing: set<string>, gs: seq<GenesisEpoch>)
    ensures GenesisError(existing, gs).None? <==> GenesisOk(existing, gs)
    decreases |gs|
  {
    if gs != [] {
      var id := gs[0].identifier;
      var tail := gs[1..];
      GenesisErrorIff(existing + {id}, tail);
      assert forall i :: 0 <= i < |tail| ==> tail[i] == gs[i + 1];
      assert forall i :: 0 <= i < |tail| ==> Identifiers(tail)[i] == Identifiers(gs)[i + 1];
      if GenesisOk(existing, gs) {
        assert GenesisOk(existing + {id}, tail) by {
          forall i | 0 <= i < |tail|
            ensures tail[i].identifier != id
          {
            assert Identifiers(gs)[0] != Identifiers(gs)[i + 1];
          }
        }
      }
      if gs[0].duration > 0 && id !in existing && GenesisOk(existing + {id}, tail) {
        forall i, j | 0 <= i < j < |gs|
          ensures Identifiers(gs)[i] != Identifiers(gs)[j]
        {
          if i == 0 {
            assert gs[j] == tail[j - 1];
          } else {
            assert Identifiers(tail)[i - 1] != Identifiers(tail)[j - 1];
          }
        }
        forall i | 0 <= i < |gs|
          ensures gs[i].duration > 0 && gs[i].identifier !in existing
        {
          if i > 0 {
            assert gs[i] == tail[i - 1];
          }
        }
      }
    }
  }

  /** Adding a record under a new identifier at the end of the order
      keeps a store well-formed. */
  lemma AddKeepsWellFormed(m: map<string, EpochInfo>, order: seq<string>, e: EpochInfo)
    requires WellFormed(m, order)
    requires e.identifier !in order && OnSchedule(e)
    ensures WellFormed(m[e.identifier := e], order + [e.identifier])
  {
  }

  /** The records a genesis list adds, keyed by identifier. */
  function Created(gs: seq<GenesisEpoch>, blockTime: Time): (m: map<string, EpochInfo>)
    decreases |gs|
  {
    if gs == [] then map[]
    else
      var last := gs[|gs| - 1];
      Created(gs[..|gs| - 1], blockTime)[last.identifier := NewEpochInfo(last, blockTime)]
  }

  /** A genesis list with distinct identifiers creates one record per
      entry: exactly its identifiers are keys, each holding the record
      created from its own entry. */
  lemma CreatedEntries(gs: seq<GenesisEpoch>, blockTime: Time)
    requires Distinct(Identifiers(gs))
    ensures forall id :: id in Created(gs, blockTime) <==> id in Identifiers(gs)
    ensures forall i :: 0 <= i < |gs| ==>
      gs[i].identifier in Created(gs, blockTime) &&
      Created(gs, blockTime)[gs[i].identifier] == NewEpochInfo(gs[i], blockTime)
  {
    CreatedKeys(gs, blockTime);
    assert forall i :: 0 <= i < |gs| ==> Identifiers(gs)[i] == gs[i].identifier;
    CreatedValues(gs, blockTime);
  }

  /** The keys a genesis list creates are its identifiers. */
  lemma {:induction false} CreatedKeys(gs: seq<GenesisEpoch>, blockTime: Time)
    ensures forall id :: id in Created(gs, blockTime) <==> id in Identifiers(gs)
    decreases |gs|
  {
    if gs != [] {
      var front := gs[..|gs| - 1];
      CreatedKeys(front, blockTime);
      assert Identifiers(gs) == Identifiers(front) + [gs[|gs| - 1].identifier];
    }
  }

  /** With distinct identifiers, each entry's key holds its own record. */
  lemma {:induction false} CreatedValues(gs: seq<GenesisEpoch>, blockTime: Time)
    requires forall i, j :: 0 <= i < j < |gs| ==> gs[i].identifier != gs[j].identifier
    ensures forall i :: 0 <= i < |gs| ==>
      gs[i].identifier in Created(gs, blockTime) &&
      Created(gs, blockTime)[gs[i].identifier] == NewEpochInfo(gs[i], blockTime)
    decreases |gs|
  {
    if gs != [] {
      var front := gs[..|gs| - 1];
      var last := gs[|gs| - 1];
      CreatedValues(front, blockTime);
      forall i | 0 <= i < |front|
        ensures front[i] == gs[i] && front[i].identifier != last.identifier
      {
      }
    }
  }

  /** Adding entry `i` of an acceptable genesis list to the store holding
      the entries before it yields the store holding entries up to `i`. */
  lemma AddGenesisEntry(m0: map<string, EpochInfo>, ids0: seq<string>, gs: seq<GenesisEpoch>, i: nat, blockTime: Time)
    requires WellFormed(m0, ids0) && GenesisOk(m0.Keys, gs) && i < |gs|
    requires WellFormed(m0 + Created(gs[..i], blockTime), ids0 + Identifiers(gs[..i]))
    ensures var e := NewEpochInfo(gs[i], blockTime);
      && (m0 + Created(gs[..i], blockTime))[e.identifier := e] == m0 + Created(gs[..i + 1], blockTime)
      && ids0 + Identifiers(gs[..i]) + [e.identifier] == ids0 + Identifiers(gs[..i + 1])
      && WellFormed(m0 + Created(gs[..i + 1], blockTime), ids0 + Identifiers(gs[..i + 1]))
  {
    var e := NewEpochInfo(gs[i], blockTime);
    NextGenesisIsNew(m0.Keys, ids0, gs, i);
    GenesisPrefixGrows(gs, i, blockTime);
    MergeUpdate(m0, Created(gs[..i], blockTime), e.identifier, e);
    AddKeepsWellFormed(m0 + Created(gs[..i], blockTime), ids0 + Identifiers(gs[..i]), e);
  }

  /** The next entry of an acceptable genesis list is in neither the
      store nor the entries already added. */
  lemma NextGenesisIsNew(existing: set<string>, ids0: seq<string>, gs: seq<GenesisEpoch>, i: nat)
    requires GenesisOk(existing, gs) && i < |gs|
    requires forall y :: y in ids0 ==> y in existing
    ensures gs[i].identifier !in ids0 + Identifiers(gs[..i])
  {
    assert forall k :: 0 <= k < i ==> Identifiers(gs[..i])[k] == Identifiers(gs)[k];
    assert Identifiers(gs)[i] == gs[i].identifier;
    assert forall y :: y in ids0 + Identifiers(gs[..i]) <==> y in ids0 || y in Identifiers(gs[..i]);
  }

  /** One more genesis entry adds one record and one identifier. */
  lemma GenesisPrefixGrows(gs: seq<GenesisEpoch>, i: nat, blockTime: Time)
    requires i < |gs|
    ensures Created(gs[..i + 1], blockTime) == Created(gs[..i], blockTime)[gs[i].identifier := NewEpochInfo(gs[i], blockTime)]
    ensures Identifiers(gs[..i + 1]) == Identifiers(gs[..i]) + [gs[i].identifier]
  {
    assert gs[..i + 1][..i] == gs[..i];
  }

  /** Updating the right operand of a map union updates the union. */
  lemma MergeUpdate(a: map<string, EpochInfo>, b: map<string, EpochInfo>, k: string, v: EpochInfo)
    ensures a + b[k := v] == (a + b)[k := v]
  {
  }

  /** Stores the records of an acceptable genesis list one entry at a
      time, each identifier appended to the order. */
  method AddGenesis(m0: map<string, EpochInfo>, ids0: seq<string>, genesis: seq<GenesisEpoch>, blockTime: Time)
    returns (m: map<string, EpochInfo>, ids: seq<string>)
    requires WellFormed(m0, ids0) && GenesisOk(m0.Keys, genesis)
    ensures WellFormed(m, ids)
    ensures m == m0 + Created(genesis, blockTime)
    ensures ids == ids0 + Identifiers(genesis)
  {
    m, ids := m0, ids0;
    var i := 0;
    while i < |genesis|
      invariant 0 <= i <= |genesis|
      invariant m == m0 + Created(genesis[..i], blockTime)
      invariant ids == ids0 + Identifiers(genesis[..i])
      invariant WellFormed(m, ids)
    {
      var g := genesis[i];
      AddGenesisEntry(m0, ids0, genesis, i, blockTime);
      m := m[g.identifier := NewEpochInfo(g, blockTime)];
      ids := ids + [g.identifier];
      i := i + 1;
    }
    assert genesis[..i] == genesis;
  }

  // ---------------------------------------------------------------------
  // Evaluation of the whole store

  /** Every record after one block; each record is evaluated on its own. */
  function StepAll(m: map<string, EpochInfo>, height: Height, t: Time): (r: map<string, EpochInfo>) {
    map id | id in m :: Step(m[id], height, t)
  }

  /** Evaluating one identifier never reads another: changing one record
      before the block changes only that record after it. */
  lemma RecordsIndependent(m: map<string, EpochInfo>, id: string, e: EpochInfo, height: Height, t: Time)
    ensures StepAll(m[id := e], height, t) == StepAll(m, height, t)[id := Step(e, height, t)]
  {
  }

  /** Evaluating a well-formed store keeps it well-formed. */
  lemma StepAllKeepsWellFormed(m: map<string, EpochInfo>, order: seq<string>, height: Height, t: Time)
    requires WellFormed(m, order)
    ensures WellFormed(StepAll(m, height, t), order)
  {
    forall id | id in m
      ensures OnSchedule(Step(m[id], height, t))
    {
      StepKeepsSchedule(m[id], height, t);
    }
  }

  /** Evaluates the records one by one in the given order, writing back
      only the records that change and collecting their events. */
  method EvaluateStore(m0: map<string, EpochInfo>, ids: seq<string>, height: Height, t: Time)
    returns (m: map<string, EpochInfo>, events: seq<EpochEvent>)
    requires Distinct(ids) && forall id :: id in ids <==> id in m0
    ensures m == StepAll(m0, height, t)
    ensures events == Events(ids, m0, height, t)
  {
    m := m0;
    events := [];
    var i := 0;
    while i < |ids|
      invariant 0 <= i <= |ids|
      invariant m == StepSome(m0, ids[..i], height, t)
      invariant events == Events(ids[..i], m0, height, t)
    {
      var id := ids[i];
      StepSomeGrows(m0, ids, i, height, t);
      var info := m[id];
      var next := Step(info, height, t);
      if next != info {
        m := m[id := next];
      }
      var ev := EventOf(info, height, t);
      EventsGrow(ids, i, m0, height, t);
      if ev.Some? {
        events := events + [ev.value];
      }
      i := i + 1;
    }
    assert ids[..i] == ids;
    StepSomeAll(m0, ids, height, t);
  }

  /** The store with only the records listed in `done` evaluated. */
  function StepSome(m: map<string, EpochInfo>, done: seq<string>, height: Height, t: Time): (r: map<string, EpochInfo>) {
    map id | id in m :: if id in done then Step(m[id], height, t) else m[id]
  }

  /** Evaluating the next listed record: it is still untouched, and
      evaluating it extends the evaluated prefix by one. */
  lemma StepSomeGrows(m: map<string, EpochInfo>, ids: seq<string>, i: nat, height: Height, t: Time)
    requires Distinct(ids) && i < |ids| && ids[i] in m
    ensures StepSome(m, ids[..i], height, t)[ids[i]] == m[ids[i]]
    ensures StepSome(m, ids[..i + 1], height, t)
         == StepSome(m, ids[..i], height, t)[ids[i] := Step(m[ids[i]], height, t)]
  {
    assert forall id :: id in ids[..i + 1] <==> id in ids[..i] || id == ids[i];
    assert ids[i] !in ids[..i];
  }

  /** Once every key is listed, every record has been evaluated. */
  lemma StepSomeAll(m: map<string, EpochInfo>, ids: seq<string>, height: Height, t: Time)
    requires forall id :: id in m ==> id in ids
    ensures StepSome(m, ids, height, t) == StepAll(m, height, t)
  {
  }

  /** The events of one block, in store order. */
  function Events(ids: seq<string>, m: map<string, EpochInfo>, height: Height, t: Time): (evs: seq<EpochEvent>)
    requires forall id :: id in ids ==> id in m
    ensures |evs| <= |ids|
    decreases |ids|
  {
    if ids == [] then []
    else
      var rest := Events(ids[..|ids| - 1], m, height, t);
      match EventOf(m[ids[|ids| - 1]], height, t)
      case Some(ev) => rest + [ev]
      case None => rest
  }

  /** One more identifier adds at most its own event at the end. */
  lemma EventsGrow(ids: seq<string>, i: nat, m: map<string, EpochInfo>, height: Height, t: Time)
    requires i < |ids| && forall id :: id in ids ==> id in m
    ensures var ev := EventOf(m[ids[i]], height, t);
      Events(ids[..i + 1], m, height, t) ==
        Events(ids[..i], m, height, t) + (if ev.Some? then [ev.value] else [])
  {
    assert ids[..i + 1][..i] == ids[..i];
  }

  /** The identifiers the events name, in event order. */
  function FiredIds(evs: seq<EpochEvent>): (ids: seq<string>)
    ensures |ids| == |evs|
  {
    seq(|evs|, i requires 0 <= i < |evs| => evs[i].identifier)
  }

  /** A block reports each changed record exactly once, with the event that
      the record's own transition emits, and reports nothing else. */
  lemma {:induction false} EventsExactlyChanged(ids: seq<string>, m: map<string, EpochInfo>, height: Height, t: Time)
    requires Distinct(ids)
    requires forall id :: id in ids ==> id in m && m[id].identifier == id
    ensures var evs := Events(ids, m, height, t);
      && Distinct(FiredIds(evs))
      && (forall id :: id in FiredIds(evs) <==> id in ids && Step(m[id], height, t) != m[id])
      && (forall ev :: ev in evs ==> ev.identifier in m && EventOf(m[ev.identifier], height, t) == Some(ev))
    decreases |ids|
  {
    if ids != [] {
      var front := ids[..|ids| - 1];
      var last := ids[|ids| - 1];
      assert forall id :: id in ids <==> id in front || id == last;
      assert last !in front;
      EventsExactlyChanged(front, m, height, t);
      var rest := Events(front, m, height, t);
      match EventOf(m[last], height, t)
      case Some(ev) => {
        assert Events(ids, m, height, t) == rest + [ev];
        assert FiredIds(rest + [ev]) == FiredIds(rest) + [last];
      }
      case None => {
      }
    }
  }

  // ---------------------------------------------------------------------
  // The keeper

  class EpochKeeper {
    /** The record store, by identifier. */
    var epochs: map<string, EpochInfo>
    /** The store's iteration order. */
    var order: seq<string>

    ghost predicate Valid()
      reads this
    {
      WellFormed(epochs, order)
    }

    constructor ()
      ensures Valid()
      ensures epochs == map[] && order == []
    {
      epochs := map[];
      order := [];
    }

    /** Stores one new record per genesis entry, an unset start time
        replaced by the block time. A list with a non-positive duration or
        an identifier already present (in the store or earlier in the list)
        is refused as a whole and the store is left unchanged. */
    method InitGenesis(blockTime: Time, genesis: seq<GenesisEpoch>) returns (err: Option<Error>)
      requires Valid()
      modifies this
      ensures Valid()
      ensures err == GenesisError(old(epochs).Keys, genesis)
      ensures err.Some? ==> epochs == old(epochs) && order == old(order)
      ensures err.None? ==> (epochs == old(epochs) + Created(genesis, blockTime)
                             && order == old(order) + Identifiers(genesis))
    {
      err := GenesisError(epochs.Keys, genesis);
      if err.Some? {
        return;
      }
      GenesisErrorIff(epochs.Keys, genesis);
      epochs, order := AddGenesis(epochs, order, genesis, blockTime);
    }

    /** Evaluates every record, in store order, for the block at `height`
        and `time`, and returns the events of the records that changed. */
    method BeginBlocker(height: Height, time: Time) returns (events: seq<EpochEvent>)
      requires Valid()
      modifies this
      ensures Valid()
      ensures order == old(order)
      ensures epochs == StepAll(old(epochs), height, time)
      ensures events == Events(old(order), old(epochs), height, time)
    {
      StepAllKeepsWellFormed(epochs, order, height, time);
      epochs, events := EvaluateStore(epochs, order, height, time);
    }

    /** The record stored under `id`, or `NotFound`. */
    method GetEpochInfo(id: string) returns (r: Result<EpochInfo>)
      requires Valid()
      ensures r.Ok? <==> id in epochs
      ensures r.Ok? ==> r.value == epochs[id] && r.value.identifier == id
      ensures r.Err? ==> r.error == NotFound(id)
    {
      if id in epochs {
        r := Ok(epochs[id]);
      } else {
        r := Err(NotFound(id));
      }
    }

    /** A snapshot of every record, in store order. */
    method AllEpochInfos() returns (infos: seq<EpochInfo>)
      requires Valid()
      ensures |infos| == |order|
      ensures forall k :: 0 <= k < |infos| ==> infos[k] == epochs[order[k]] && infos[k].identifier == order[k]
    {
      infos := [];
      var i := 0;
      while i < |order|
        invariant 0 <= i <= |order|
        invariant |infos| == i
        invariant forall k :: 0 <= k < i ==> infos[k] == epochs[order[k]]
      {
        infos := infos + [epochs[order[i]]];
        i := i + 1;
      }
    }

    /** Removes the record stored under `id`, or reports `NotFound`. */
    method DeleteEpochInfo(id: string) returns (err: Option<Error>)
      requires Valid()
      modifies this
      ensures Valid()
      ensures err.Some? <==> id !in old(epochs)
      ensures err.Some? ==> err.value == NotFound(id)
      ensures epochs == old(epochs) - {id}
      ensures order == Without(old(order), id)
    {
      if id !in epochs {
        err := Some(NotFound(id));
        return;
      }
      err := None;
      epochs := epochs - {id};
      order := Without(order, id);
    }

    /** Lists every record and deletes each in turn, leaving an empty store. */
    method DeleteAll()
      requires Valid()
      modifies this
      ensures Valid()
      ensures epochs == map[] && order == []
    {
      var infos := AllEpochInfos();
      ghost var listed := order;
      var i := 0;
      while i < |infos|
        invariant 0 <= i <= |infos| == |listed|
        invariant forall k :: 0 <= k < |infos| ==> infos[k].identifier == listed[k]
        invariant Valid()
        invariant order == listed[i..]
      {
        var _ := DeleteEpochInfo(infos[i].identifier);
        WithoutFirst(listed[i..]);
        assert listed[i..][1..] == listed[i + 1..];
        i := i + 1;
      }
      assert epochs == map[];
    }
  }
}

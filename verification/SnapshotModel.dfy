/** Telemetry snapshots, and the deltas that carry one snapshot into the next. */
module SnapshotModel {
  import opened Common

  /** The seven percentages of one `CPUn:` line. */
  datatype CpuMetrics = CpuMetrics(usr: real, sys: real, nic: real, idle: real, io: real, irq: real, sirq: real)

  /** One radio's client list. */
  datatype RadioClients = RadioClients(totalSize: int, clients: seq<string>)

  type DeviceId = Option<string>

  /** What the parser reads out of one block of console lines. */
  datatype Reading = Reading(
    testCount: int,
    deviceTs: string,
    cpu: map<string, CpuMetrics>,
    memory: map<string, int>,
    wifi: map<string, RadioClients>)

  /** A reading stamped with the unit it was taken on: what is stored. */
  datatype Snapshot = Snapshot(deviceId: DeviceId, reading: Reading)

  datatype Delta = Delta(
    testCount: Option<int>,
    deviceTs: Option<string>,
    cpu: map<string, CpuMetrics>,
    cpuRemoved: set<string>,
    memory: map<string, int>,
    wifi: map<string, RadioClients>,
    wifiRemoved: set<string>)
  {
    /** An empty delta is falsy in the program and is never emitted. */
    predicate IsEmpty() {
      this == Delta(None, None, map[], {}, map[], map[], {})
    }
  }

  /** The entries of `cur` that `prev` does not hold. */
  function Changed<V(==)>(prev: map<string, V>, cur: map<string, V>): map<string, V> {
    map k | k in cur && (k !in prev || prev[k] != cur[k]) :: cur[k]
  }

  function Diff(prev: Reading, cur: Reading): Delta {
    Delta(
      if prev.testCount != cur.testCount then Some(cur.testCount) else None,
      if prev.deviceTs != cur.deviceTs then Some(cur.deviceTs) else None,
      Changed(prev.cpu, cur.cpu),
      prev.cpu.Keys - cur.cpu.Keys,
      Changed(prev.memory, cur.memory),
      Changed(prev.wifi, cur.wifi),
      prev.wifi.Keys - cur.wifi.Keys)
  }

  function Patch<V>(base: map<string, V>, removed: set<string>, changed: map<string, V>): map<string, V> {
    (base - removed) + changed
  }

  function Reconstruct(base: Snapshot, delta: Delta): Snapshot {
    Snapshot(
      base.deviceId,
      Reading(
        delta.testCount.GetOr(base.reading.testCount),
        delta.deviceTs.GetOr(base.reading.deviceTs),
        Patch(base.reading.cpu, delta.cpuRemoved, delta.cpu),
        Patch(base.reading.memory, {}, delta.memory),
        Patch(base.reading.wifi, delta.wifiRemoved, delta.wifi)))
  }

  lemma {:induction false} PatchUndoesChanged<V>(prev: map<string, V>, cur: map<string, V>)
    ensures Patch(prev, prev.Keys - cur.Keys, Changed(prev, cur)) == cur
    ensures Patch(prev, {}, Changed(prev, cur)) == prev + cur
  {
    var a := Patch(prev, prev.Keys - cur.Keys, Changed(prev, cur));
    assert a.Keys == cur.Keys;
    var b := Patch(prev, {}, Changed(prev, cur));
    assert b.Keys == (prev + cur).Keys;
  }

  /** Applying the difference of two readings rebuilds the later one, except that memory keys are never taken away. */
  lemma {:induction false} ReconstructUndoesDiff(base: Snapshot, cur: Reading)
    ensures Reconstruct(base, Diff(base.reading, cur)) ==
            Snapshot(base.deviceId, cur.(memory := base.reading.memory + cur.memory))
  {
    PatchUndoesChanged(base.reading.cpu, cur.cpu);
    PatchUndoesChanged(base.reading.memory, cur.memory);
    PatchUndoesChanged(base.reading.wifi, cur.wifi);
  }

  /** The rebuild is exact if and only if the later reading still has every memory key of the earlier one. */
  lemma {:induction false} ReconstructExactIff(base: Snapshot, cur: Reading)
    ensures Reconstruct(base, Diff(base.reading, cur)) == Snapshot(base.deviceId, cur)
            <==> base.reading.memory.Keys <= cur.memory.Keys
  {
    ReconstructUndoesDiff(base, cur);
    var m := base.reading.memory + cur.memory;
    assert m.Keys == base.reading.memory.Keys + cur.memory.Keys;
    if base.reading.memory.Keys <= cur.memory.Keys {
      assert m == cur.memory;
    }
  }

  lemma {:induction false} LeastPatch<V>(
    prev: map<string, V>, cur: map<string, V>, removed: set<string>, changed: map<string, V>)
    requires Patch(prev, removed, changed) == cur
    ensures Changed(prev, cur).Keys <= changed.Keys && prev.Keys - cur.Keys <= removed
  {
    forall k | k in Changed(prev, cur)
      ensures k in changed
    {
      assert Patch(prev, removed, changed)[k] == cur[k];
    }
    forall k | k in prev.Keys - cur.Keys
      ensures k in removed
    {
      assert k !in Patch(prev, removed, changed);
    }
  }

  /** No delta that rebuilds the later reading carries less: the difference holds only what every such delta must. */
  lemma {:induction false} DiffIsLeast(base: Snapshot, cur: Reading, delta: Delta)
    requires Reconstruct(base, delta) == Snapshot(base.deviceId, cur)
    ensures var d := Diff(base.reading, cur);
      && d.cpu.Keys <= delta.cpu.Keys && d.cpuRemoved <= delta.cpuRemoved && d.memory.Keys <= delta.memory.Keys
      && d.wifi.Keys <= delta.wifi.Keys && d.wifiRemoved <= delta.wifiRemoved
      && (d.testCount.Some? ==> d.testCount == delta.testCount) && (d.deviceTs.Some? ==> d.deviceTs == delta.deviceTs)
  {
    LeastPatch(base.reading.cpu, cur.cpu, delta.cpuRemoved, delta.cpu);
    LeastPatch(base.reading.memory, cur.memory, {}, delta.memory);
    LeastPatch(base.reading.wifi, cur.wifi, delta.wifiRemoved, delta.wifi);
  }

  /** A reading that loses its one memory key is not rebuilt: the stale key survives. */
  lemma {:induction false} MemoryKeySurvivesDelta()
    ensures var prev := Reading(1, "t", map[], map["MemFree" := 7], map[]);
            var cur := prev.(memory := map[]);
            Diff(prev, cur).IsEmpty() &&
            Reconstruct(Snapshot(None, prev), Diff(prev, cur)).reading != cur
  {
    var prev := Reading(1, "t", map[], map["MemFree" := 7], map[]);
    var cur := prev.(memory := map[]);
    assert "MemFree" in prev.memory && "MemFree" !in cur.memory;
    ReconstructUndoesDiff(Snapshot(None, prev), cur);
    assert "MemFree" in Reconstruct(Snapshot(None, prev), Diff(prev, cur)).reading.memory;
  }

  /** An empty difference says the readings agree on everything a delta can carry. */
  lemma {:induction false} EmptyDiff(prev: Reading, cur: Reading)
    ensures Diff(prev, cur).IsEmpty() <==>
            prev.testCount == cur.testCount && prev.deviceTs == cur.deviceTs &&
            prev.cpu == cur.cpu && prev.wifi == cur.wifi && prev.memory == prev.memory + cur.memory
  {
    PatchUndoesChanged(prev.cpu, cur.cpu);
    PatchUndoesChanged(prev.memory, cur.memory);
    PatchUndoesChanged(prev.wifi, cur.wifi);
    if Diff(prev, cur).IsEmpty() {
      assert prev.cpu - {} + map[] == prev.cpu;
      assert prev.wifi - {} + map[] == prev.wifi;
      assert prev.memory - {} + map[] == prev.memory;
    }
    if prev.memory == prev.memory + cur.memory {
      forall k | k in cur.memory
        ensures k in prev.memory && prev.memory[k] == cur.memory[k]
      {
        assert (prev.memory + cur.memory)[k] == cur.memory[k];
      }
    }
  }

  // ---- the loops of the program -------------------------------------------------------

  /** Collects the changed entries of one section, one key at a time. */
  method CollectChanged<V(==)>(prev: map<string, V>, cur: map<string, V>) returns (changed: map<string, V>)
    ensures changed == Changed(prev, cur)
  {
    changed := map[];
    var todo := cur.Keys;
    while todo != {}
      invariant todo <= cur.Keys
      invariant changed == map k | k in Changed(prev, cur) && k !in todo :: cur[k]
      decreases todo
    {
      var key :| key in todo;
      if key !in prev || prev[key] != cur[key] {
        changed := changed[key := cur[key]];
      }
      todo := todo - {key};
    }
    assert changed.Keys == Changed(prev, cur).Keys;
  }

  method BuildDelta(previous: Reading, current: Reading) returns (delta: Delta)
    ensures delta == Diff(previous, current)
  {
    delta := Delta(None, None, map[], {}, map[], map[], {});
    if previous.testCount != current.testCount {
      delta := delta.(testCount := Some(current.testCount));
    }
    if previous.deviceTs != current.deviceTs {
      delta := delta.(deviceTs := Some(current.deviceTs));
    }
    var changedCpu := CollectChanged(previous.cpu, current.cpu);
    delta := delta.(cpu := changedCpu, cpuRemoved := previous.cpu.Keys - current.cpu.Keys);
    var changedMemory := CollectChanged(previous.memory, current.memory);
    delta := delta.(memory := changedMemory);
    var changedWifi := CollectChanged(previous.wifi, current.wifi);
    delta := delta.(wifi := changedWifi, wifiRemoved := previous.wifi.Keys - current.wifi.Keys);
  }

  /** Pops the removed keys, then writes the changed ones. */
  method PatchInPlace<V>(base: map<string, V>, removed: set<string>, changed: map<string, V>)
    returns (next: map<string, V>)
    ensures next == Patch(base, removed, changed)
  {
    next := base;
    var pops := removed;
    while pops != {}
      invariant pops <= removed
      invariant next == base - (removed - pops)
      decreases pops
    {
      var key :| key in pops;
      next := next - {key};
      assert removed - (pops - {key}) == (removed - pops) + {key};
      pops := pops - {key};
    }
    var writes := changed.Keys;
    assert removed - {} == removed;
    while writes != {}
      invariant writes <= changed.Keys
      invariant next == (base - removed) + map k | k in changed && k !in writes :: changed[k]
      decreases writes
    {
      var key :| key in writes;
      next := next[key := changed[key]];
      writes := writes - {key};
    }
    assert changed == map k | k in changed && k !in writes :: changed[k];
  }

  method ApplyDelta(base: Snapshot, delta: Delta) returns (next: Snapshot)
    ensures next == Reconstruct(base, delta)
  {
    var nextCpu := PatchInPlace(base.reading.cpu, delta.cpuRemoved, delta.cpu);
    var nextMemory := PatchInPlace(base.reading.memory, {}, delta.memory);
    var nextWifi := PatchInPlace(base.reading.wifi, delta.wifiRemoved, delta.wifi);
    next := Snapshot(
      base.deviceId,
      Reading(
        delta.testCount.GetOr(base.reading.testCount),
        delta.deviceTs.GetOr(base.reading.deviceTs),
        nextCpu, nextMemory, nextWifi));
  }
}

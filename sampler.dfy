/** One sampling tick: the snapshot built from the tick's readings, and the
    record it is emitted as, in which an empty process list and an absent
    OS identity are left out. */
module Sampler {
  import opened Records
  import Ranking
  import Devices

  // ---------------------------------------------------------------
  // CPU average
  // ---------------------------------------------------------------

  function Sum(s: seq<int>): int
    decreases |s|
  {
    if s == [] then 0 else Sum(s[..|s| - 1]) + s[|s| - 1]
  }

  /** a / n rounded to the nearest integer, halves away from zero, as
      `f32::round` rounds. */
  function RoundedQuotient(a: int, n: int): (q: int)
    requires n > 0
    ensures a >= 0 ==> 2 * a - n < 2 * n * q <= 2 * a + n
    ensures a < 0 ==> 2 * a - n <= 2 * n * q < 2 * a + n
  {
    if a >= 0 then
      var q := (2 * a + n) / (2 * n);
      assert (2 * n) * q <= 2 * a + n < (2 * n) * q + 2 * n;
      q
    else
      var q := (-2 * a + n) / (2 * n);
      assert (2 * n) * q <= -2 * a + n < (2 * n) * q + 2 * n;
      -q
  }

  /** The mean usage over all cores in hundredths, rounded; 0 without cores. */
  function CpuAvg(cpus: seq<int>): (avg: int)
    ensures cpus == [] ==> avg == 0
    ensures cpus != [] ==> -|cpus| <= 2 * (|cpus| * avg - Sum(cpus)) <= |cpus|
  {
    if cpus == [] then 0 else RoundedQuotient(Sum(cpus), |cpus|)
  }

  lemma {:induction false} SumWithin(s: seq<int>, lo: int, hi: int)
    requires forall i :: 0 <= i < |s| ==> lo <= s[i] <= hi
    ensures |s| * lo <= Sum(s) <= |s| * hi
    decreases |s|
  {
    if s != [] {
      SumWithin(s[..|s| - 1], lo, hi);
      assert |s| * lo == (|s| - 1) * lo + lo;
      assert |s| * hi == (|s| - 1) * hi + hi;
    }
  }

  lemma PositiveFactor(k: int, m: int)
    requires m > 0 && k * m > 0
    ensures k > 0
  {
  }

  /** With n > 0, n * x within half of n below n * y forces x >= y. */
  lemma NotBelow(n: int, x: int, y: int)
    requires n > 0 && 2 * (n * x) >= 2 * (n * y) - n
    ensures x >= y
  {
    assert (x - y + 1) * n == n * x - n * y + n;
    PositiveFactor(x - y + 1, n);
  }

  /** With n > 0, n * x within half of n above n * y forces x <= y. */
  lemma NotAbove(n: int, x: int, y: int)
    requires n > 0 && 2 * (n * x) <= 2 * (n * y) + n
    ensures x <= y
  {
    assert (y - x + 1) * n == n * y - n * x + n;
    PositiveFactor(y - x + 1, n);
  }

  /** The average lies within any bounds that hold for every core; in
      particular per-core usage in 0..10000 gives an average in 0..10000. */
  lemma CpuAvgWithin(cpus: seq<int>, lo: int, hi: int)
    requires cpus != []
    requires forall i :: 0 <= i < |cpus| ==> lo <= cpus[i] <= hi
    ensures lo <= CpuAvg(cpus) <= hi
  {
    SumWithin(cpus, lo, hi);
    NotBelow(|cpus|, CpuAvg(cpus), lo);
    NotAbove(|cpus|, CpuAvg(cpus), hi);
  }

  // ---------------------------------------------------------------
  // Snapshot
  // ---------------------------------------------------------------

  /** The snapshot of one tick, with the OS identity it is given and the
      process ranking only when processes were asked for. */
  function Snapshot(os: Option<OsInfo>, includeProcesses: bool, r: Readings): (s: Stats)
    ensures s.os == os
    ensures !includeProcesses ==> s.processes == []
    ensures |s.processes| <= Ranking.TOP_COUNT
    ensures r.cpus == [] ==> s.cpuAvg == 0
    ensures forall i :: 0 <= i < |s.disks| ==> s.disks[i].total > 0
    ensures forall i :: 0 <= i < |s.network| ==> s.network[i].rxBytes > 0 || s.network[i].txBytes > 0
  {
    Stats(r.cpus, CpuAvg(r.cpus), r.memory,
          Devices.Disks(r.disks), Devices.Network(r.networks),
          if includeProcesses then Ranking.Ranked(r.processes) else [],
          os)
  }

  /** The snapshot's process list is in non-increasing CPU order. */
  lemma SnapshotSorted(os: Option<OsInfo>, includeProcesses: bool, r: Readings)
    ensures Ranking.SortedDesc(Snapshot(os, includeProcesses, r).processes)
  {
    if includeProcesses {
      Ranking.RankedSorted(r.processes);
    }
  }

  /** Builds the snapshot of one tick from its readings, step by step as
      `collect_stats` does. It differs from `Snapshot` only in ranking the
      processes with the in-place sort of `Ranking.RankProcesses`; its
      contract ties that imperative route to the functional definition. */
  method CollectStats(os: Option<OsInfo>, includeProcesses: bool, r: Readings) returns (s: Stats)
    ensures s == Snapshot(os, includeProcesses, r)
  {
    var cpu := r.cpus;
    var cpuAvg := CpuAvg(cpu);
    var processes: seq<ProcessStats> := [];
    if includeProcesses {
      processes := Ranking.RankProcesses(r.processes);
    }
    var disks := Devices.Disks(r.disks);
    var network := Devices.Network(r.networks);
    s := Stats(cpu, cpuAvg, r.memory, disks, network, processes, os);
  }

  // ---------------------------------------------------------------
  // Emitted record
  // ---------------------------------------------------------------

  /** A snapshot as written out: the two optional fields are either present
      or absent from the record. */
  datatype Record = Record(
    cpu: seq<int>,
    cpuAvg: int,
    memory: MemoryStats,
    disks: seq<DiskStats>,
    network: seq<NetStats>,
    processes: Option<seq<ProcessStats>>,
    os: Option<OsInfo>)

  /** The record of a snapshot: an empty process list is left out, as is an
      absent OS identity. */
  function Emit(s: Stats): (rec: Record)
    ensures rec.processes.Some? <==> s.processes != []
    ensures rec.os == s.os
    ensures Restore(rec) == s
  {
    Record(s.cpu, s.cpuAvg, s.memory, s.disks, s.network,
           if s.processes == [] then None else Some(s.processes),
           s.os)
  }

  /** Reads a record back: a missing process list is an empty one. */
  function Restore(rec: Record): Stats {
    Stats(rec.cpu, rec.cpuAvg, rec.memory, rec.disks, rec.network,
          rec.processes.GetOr([]), rec.os)
  }

  /** The keys of the written object, in declaration order. */
  function Keys(rec: Record): seq<string> {
    ["cpu", "cpu_avg", "memory", "disks", "network"]
      + (if rec.processes.Some? then ["processes"] else [])
      + (if rec.os.Some? then ["os"] else [])
  }

  /** The optional keys are written exactly when their field is present. */
  lemma KeysOfEmit(s: Stats)
    ensures "processes" in Keys(Emit(s)) <==> s.processes != []
    ensures "os" in Keys(Emit(s)) <==> s.os.Some?
    ensures Keys(Emit(s))[..5] == ["cpu", "cpu_avg", "memory", "disks", "network"]
  {
  }

  /** The process list is written exactly when processes were asked for and
      the process table was not empty; a requested but empty list is left
      out like one that was not requested. */
  lemma ProcessesWritten(os: Option<OsInfo>, includeProcesses: bool, r: Readings)
    ensures Emit(Snapshot(os, includeProcesses, r)).processes.Some? <==> includeProcesses && r.processes != []
    ensures !includeProcesses ==> Emit(Snapshot(os, includeProcesses, r)).processes == None
  {
  }
}

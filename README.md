# stats-agent sampling core, modelled in Dafny

The stats agent samples a host's CPU, memory, disks, network and,
optionally, its busiest processes, and writes each sample as one record.
Run once (`json`, `json-processes`, or no argument) it writes one
pretty-printed record with the OS identity. Run as a daemon it writes one
compact record per interval, and only the first of these carries the OS
identity.

This project models what the agent does with the operating system's
readings. The readings themselves are inputs: a `Readings` value per tick.
The model covers:

- `records.dfy` (module `Records`): the snapshot's value types and the
  readings of one tick. CPU percentages are integers in hundredths of a
  percent, which is the precision the agent rounds to. Counters are `u64`
  and process ids `u32`, as in the source.
- `ranking.dfy` (module `Ranking`): the top-processes ranking. The process
  table is mapped to entries in enumeration order and sorted in place,
  highest CPU first, with a stable sort. The sort works on an `array` and is
  proved equal to `SortDesc`, a functional stable insertion sort. The list is
  then cut to ten entries. `SortDesc` is proved sorted, a permutation and
  stable. It is also proved to be the only result that is sorted and keeps
  the enumeration order within each key, so any stable sort gives the same
  result, Rust's merge sort included. "Enumeration order" is the order in
  which the tick's readings list processes, volumes and interfaces. For
  processes and interfaces it is the iteration order of a keyed map, which is
  arbitrary and may change from run to run. The model takes whatever
  sequence it is given and assumes no particular order, such as by pid.
- `devices.dfy` (module `Devices`): the disk filter (`total > 0`) and the
  network filter (`rx > 0 || tx > 0`), each a filter followed by a map.
- `sampler.dfy` (module `Sampler`): the CPU average (0 when there are no
  cores), the snapshot of one tick, and the emitted record. In the record,
  an empty process list and an absent OS identity are left out.
- `agent.dfy` (module `Agent`): Rust's `u64` parser, command dispatch, the
  daemon loop with its `first` flag (bounded to a given number of ticks),
  single-shot output and the whole invocation.

Two behaviours of the code are worth stating outright:

- The process list is left out whenever it is empty
  (`skip_serializing_if = "Vec::is_empty"`), so a requested list is also
  left out when the process table is empty (`Sampler.ProcessesWritten`).
- A single-shot serialization error is only printed to the error stream;
  `json_once` returns and the process exits normally. Serialization failure
  is not modelled.

## Model

| member | source | states |
|---|---|---|
| `Ranking.ProcessList` | tools/stats-agent/src/main.rs:204-217 | the table gives one entry per process, in enumeration order, with pid, name, memory and CPU copied and a missing executable path written as the empty string |
| `Ranking.SortDesc` | tools/stats-agent/src/main.rs:219 | the sorted process list has the same length as the table |
| `Ranking.SortDescSorted` | tools/stats-agent/src/main.rs:219 | the sort leaves entries in non-increasing CPU order |
| `Ranking.SortDescPermutation` | tools/stats-agent/src/main.rs:219 | the sort is a permutation of its input (equal multisets) |
| `Ranking.SortDescStable` | tools/stats-agent/src/main.rs:219 | the sort is stable: for every CPU value, the entries with that value keep their enumeration order |
| `Ranking.SortedUnique` | tools/stats-agent/src/main.rs:219 | two CPU-sorted sequences that agree on the order within every CPU value are equal |
| `Ranking.StableSortIsSortDesc` | tools/stats-agent/src/main.rs:219 | any sequence that is sorted by CPU and keeps enumeration order within each value equals `SortDesc` of the input, so `sort_by`'s result is modelled exactly |
| `Ranking.InsertInPlace` | tools/stats-agent/src/main.rs:219 | one step of the in-place sort: the prefix grows by `Insert` and the rest of the array is unchanged |
| `Ranking.SortInPlace` | tools/stats-agent/src/main.rs:219 | the in-place sort leaves the array equal to the stable descending sort of its old contents |
| `Ranking.Ranked` | tools/stats-agent/src/main.rs:204-221 | the ranking has `min(10, n)` entries for a table of `n` processes |
| `Ranking.RankedSorted` | tools/stats-agent/src/main.rs:219-221 | the ranking is in non-increasing CPU order |
| `Ranking.RankedFromTable` | tools/stats-agent/src/main.rs:204-221 | every ranked entry comes from the table, with no entry used twice (multiset inclusion) |
| `Ranking.RankedIsTop` | tools/stats-agent/src/main.rs:219-220 | no process left out of the ranking uses more CPU than any ranked one |
| `Ranking.RankedStable` | tools/stats-agent/src/main.rs:219-220 | for each CPU value, the ranked entries with that value are the earliest-enumerated ones, in enumeration order (a prefix) |
| `Ranking.RankProcesses` | tools/stats-agent/src/main.rs:204-221 | building the array, sorting it in place and truncating to 10 gives `Ranked`, of length `min(10, n)` |
| `Devices.Disks` | tools/stats-agent/src/main.rs:230-240 | no listed disk has zero total capacity, and the list is no longer than the enumeration |
| `Devices.DisksInOrder` | tools/stats-agent/src/main.rs:231-240 | the disk list of a concatenation is the concatenation of the lists; one volume gives its own entry iff `total > 0`, so order is preserved |
| `Devices.DisksExactly` | tools/stats-agent/src/main.rs:231-240 | a volume is listed, with name, available and total unchanged, iff `total > 0`; nothing else is listed |
| `Devices.Network` | tools/stats-agent/src/main.rs:243-258 | no listed interface has both byte counters zero, and the list is no longer than the enumeration |
| `Devices.NetworkInOrder` | tools/stats-agent/src/main.rs:246-258 | the network list of a concatenation is the concatenation of the lists; one interface gives its own entry iff `rx > 0` or `tx > 0` |
| `Devices.NetworkExactly` | tools/stats-agent/src/main.rs:246-258 | an interface is listed, with all six counters unchanged, iff `rx > 0` or `tx > 0`; nothing else is listed |
| `Sampler.RoundedQuotient` | tools/stats-agent/src/main.rs:185 | the quotient is rounded to the nearest integer, with halves going away from zero |
| `Sampler.CpuAvg` | tools/stats-agent/src/main.rs:182-186 | the average is 0 with no cores, and otherwise within half a unit of the exact mean |
| `Sampler.CpuAvgWithin` | tools/stats-agent/src/main.rs:182-186 | the average lies within any bounds that every core's usage respects |
| `Sampler.Snapshot` | tools/stats-agent/src/main.rs:168-269 | a snapshot carries the OS identity it was given, has no processes unless they were requested, has at most 10 processes, has `cpu_avg` 0 with no cores, and lists only disks with capacity and interfaces with traffic |
| `Sampler.SnapshotSorted` | tools/stats-agent/src/main.rs:219-221 | a snapshot's process list is in non-increasing CPU order |
| `Sampler.CollectStats` | tools/stats-agent/src/main.rs:168-269 | collecting one tick returns the snapshot of its readings |
| `Sampler.Emit` | tools/stats-agent/src/main.rs:23-34 | the record has a process list iff the snapshot's list is non-empty, keeps the OS field as given, and reads back to the same snapshot |
| `Sampler.KeysOfEmit` | tools/stats-agent/src/main.rs:23-34 | the record always has the five fixed keys, in declaration order; `processes` is written iff the list is non-empty and `os` iff it is present |
| `Sampler.ProcessesWritten` | tools/stats-agent/src/main.rs:196-224 | the process list is written iff processes were requested and the table was non-empty |
| `Agent.ParseU64` | tools/stats-agent/src/main.rs:98 | a string that parses is non-empty and holds only digits apart from one optional leading `+`; the empty string and a lone `+` do not parse |
| `Agent.ToDecimal` | tools/stats-agent/src/main.rs:98 | the decimal form of a number is a non-empty digit string whose value is that number |
| `Agent.ParseU64RoundTrip` | tools/stats-agent/src/main.rs:98 | every u64 reads back from its decimal form, with or without a leading `+` |
| `Agent.ParseU64Accepts` | tools/stats-agent/src/main.rs:98 | every non-empty digit string below 2^64, leading zeros included, parses to its value, with or without a leading `+` |
| `Agent.ParseU64RejectsSigns` | tools/stats-agent/src/main.rs:98 | the empty string, a lone `+` or `-`, and a minus-signed number do not parse |
| `Agent.ParseU64RejectsOverflow` | tools/stats-agent/src/main.rs:98 | a digit string whose value is 2^64 or more does not parse, with or without `+` |
| `Agent.ParseU64RejectsNonDigit` | tools/stats-agent/src/main.rs:98 | a string holding a non-digit, other than one leading `+`, does not parse |
| `Agent.Dispatch` | tools/stats-agent/src/main.rs:94-111 | no argument selects single-shot without processes; a daemon interval other than 5 was read from the argument after `daemon`; usage is selected only by an unknown command |
| `Agent.DispatchModes` | tools/stats-agent/src/main.rs:94-111 | no argument or `json` selects single-shot without processes, `json-processes` selects single-shot with processes, `daemon` selects the daemon, `version` selects the version line, and any other command selects the usage text |
| `Agent.DaemonInterval` | tools/stats-agent/src/main.rs:98 | the daemon interval is the parsed second argument, or 5 when it is missing or unparseable |
| `Agent.DispatchCommandLine` | tools/stats-agent/src/main.rs:94-111 | every mode has a command line that dispatch maps back to it |
| `Agent.DaemonRecord` | tools/stats-agent/src/main.rs:143-148 | a daemon tick's record has OS identity iff it is tick 0, and never has a process list |
| `Agent.DaemonMode` | tools/stats-agent/src/main.rs:130-162 | the loop with its `first` flag writes one record per tick, each equal to `DaemonRecord` of that tick, with OS identity on tick 0 and none afterwards |
| `Agent.JsonOnce` | tools/stats-agent/src/main.rs:289-303 | single-shot writes the snapshot's record, with OS identity present and a process list iff requested and the table is non-empty |
| `Agent.Run` | tools/stats-agent/src/main.rs:91-112 | an invocation shows usage exactly for unknown commands, prints the version line for `version`, writes one record for single-shot modes, and streams one record per tick with the dispatched interval for the daemon |

## Left out

- The `sysinfo` handles and their refresh calls (`System`, `Disks`, `Networks`). They are foreign and keep their own accounting state, so their results are inputs (`Readings`, and `sample(t)` for daemon tick `t`).
- The warm-up CPU refresh and the 500 ms sleep before the first sample, and the sleep between daemon ticks. These are wall-clock timing. The daemon interval is recorded in the outcome but not used.
- The global `Mutex` around the shared `System`, its lock and its early `drop`. Their purpose is mutual exclusion, and the model has one caller.
- Floating point. Per-core and per-process usage arrive already in hundredths, so the `(x * 100.0).round() / 100.0` step on them is not modelled. Their NaN case (`partial_cmp(...).unwrap_or(Equal)`) cannot occur with integer keys.
- `Sampler.CpuAvg`: the average is the exact mean of the hundredths, rounded half away from zero. The model has no `f32` summation or division error.
- Serialization with `serde_json`, the pretty and compact layouts, `println!`/`eprintln!` and the stdout flush. Only which fields a record has, and the order of its keys, are modelled. A serialization error cannot arise in the model, so its error branch is not modelled.
- `get_os_info`. It is a foreign lookup with string fallbacks, so the OS identity is an input. It always returns `Some`, so the model takes an `OsInfo` directly.
- Lossy conversion of names and paths with `to_string_lossy`. Names and paths are given as strings.
- The daemon's endless `loop`. `Agent.DaemonMode` runs the first `ticks` iterations. `Agent.DaemonRecord` gives the record of any tick.
- Command-line arguments are Unicode strings. `env::args()` panics when any argument is not valid Unicode, and that case is not modelled.
- The text of the usage message. The model records only that usage is shown and that no sample is taken.
- The value of `CARGO_PKG_VERSION`. It is a compile-time constant, so it is a parameter of `Agent.Run`.

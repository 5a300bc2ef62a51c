/** Values of the stats agent: the readings taken from the operating system
    on one sampling tick, and the snapshot assembled from them.

    Percentages are integers in hundredths of a percent (12.34% is 1234),
    which is the precision the agent rounds every percentage to. */
module Records {

  /** Rust's `u64`, the width of every byte and packet counter. */
  newtype u64 = x: int | 0 <= x < 0x1_0000_0000_0000_0000

  /** Rust's `u32`, the width of a process id. */
  newtype u32 = x: int | 0 <= x < 0x1_0000_0000

  datatype Option<+T> = None | Some(value: T) {
    function GetOr(default: T): T {
      match this
      case Some(v) => v
      case None => default
    }
  }

  // ---------------------------------------------------------------
  // Readings: what the OS accounting interfaces report on one tick
  // ---------------------------------------------------------------

  /** One entry of the process table: `exe` is absent when the executable
      path cannot be read; `cpuUsage` is already rounded to hundredths. */
  datatype ProcessReading = ProcessReading(
    pid: u32, name: string, exe: Option<string>, memory: u64, cpuUsage: int)

  /** One mounted volume. */
  datatype DiskReading = DiskReading(name: string, availableSpace: u64, totalSpace: u64)

  /** One network interface with its cumulative counters. */
  datatype NetReading = NetReading(
    name: string,
    totalReceived: u64, totalTransmitted: u64,
    packetsReceived: u64, packetsTransmitted: u64,
    errorsReceived: u64, errorsTransmitted: u64)

  /** Memory and swap in bytes. */
  datatype MemoryStats = MemoryStats(total: u64, used: u64, swapTotal: u64, swapUsed: u64)

  /** Everything one tick reads, each list in enumeration order:
      per-core CPU usage (hundredths), memory, the process table, the
      volumes and the interfaces. */
  datatype Readings = Readings(
    cpus: seq<int>,
    memory: MemoryStats,
    processes: seq<ProcessReading>,
    disks: seq<DiskReading>,
    networks: seq<NetReading>)

  // ---------------------------------------------------------------
  // Snapshot
  // ---------------------------------------------------------------

  datatype DiskStats = DiskStats(name: string, available: u64, total: u64)

  datatype NetStats = NetStats(
    iface: string,
    rxBytes: u64, txBytes: u64,
    rxPackets: u64, txPackets: u64,
    rxErrors: u64, txErrors: u64)

  /** One entry of the top-processes ranking; `cpu` is in hundredths. */
  datatype ProcessStats = ProcessStats(pid: u32, name: string, exe: string, memory: u64, cpu: int)

  datatype OsInfo = OsInfo(name: string, kernel: string, version: string, arch: string)

  /** One snapshot, fully built before it is emitted. */
  datatype Stats = Stats(
    cpu: seq<int>,
    cpuAvg: int,
    memory: MemoryStats,
    disks: seq<DiskStats>,
    network: seq<NetStats>,
    processes: seq<ProcessStats>,
    os: Option<OsInfo>)

  function Min(a: int, b: int): int {
    if a <= b then a else b
  }
}

/** The agent's entry points: the command line picks a mode; the single-shot
    modes emit one record, the daemon emits one record per tick and attaches
    the OS identity to the first one only. */
module Agent {
  import opened Records
  import Sampler

  // ---------------------------------------------------------------
  // Decimal numbers, as `str::parse::<u64>` reads them
  // ---------------------------------------------------------------

  predicate IsDigit(c: char) {
    '0' <= c <= '9'
  }

  predicate AllDigits(s: string) {
    forall i :: 0 <= i < |s| ==> IsDigit(s[i])
  }

  function DecimalValue(s: string): nat
    requires AllDigits(s)
    decreases |s|
  {
    if s == [] then 0
    else DecimalValue(s[..|s| - 1]) * 10 + (s[|s| - 1] as int - '0' as int)
  }

  /** Rust's `u64` parser: an optional leading '+', then one or more ASCII
      digits whose value fits in 64 bits; anything else is an error. */
  function ParseU64(s: string): (r: Option<u64>)
    ensures r.Some? ==> s != [] && forall i :: 0 <= i < |s| ==> IsDigit(s[i]) || (i == 0 && s[i] == '+')
    ensures s == [] || s == "+" ==> r == None
  {
    if s == [] then None
    else
      var digits := if s[0] == '+' then s[1..] else s;
      if digits != [] && AllDigits(digits) && DecimalValue(digits) < 0x1_0000_0000_0000_0000
      then Some(DecimalValue(digits) as u64)
      else None
  }

  /** The decimal digits of `n`, without leading zeros. */
  function ToDecimal(n: nat): (s: string)
    ensures s != [] && AllDigits(s)
    ensures DecimalValue(s) == n
    decreases n
  {
    var last := [(n % 10 + '0' as int) as char];
    if n < 10 then last
    else
      var t := ToDecimal(n / 10) + last;
      assert t[..|t| - 1] == ToDecimal(n / 10);
      t
  }

  /** Every 64-bit value reads back from its decimal form, with or without
      a '+' sign. */
  lemma ParseU64RoundTrip(n: u64)
    ensures ParseU64(ToDecimal(n as nat)) == Some(n)
    ensures ParseU64("+" + ToDecimal(n as nat)) == Some(n)
  {
  }

  /** Any non-empty digit string whose value fits in 64 bits parses to that
      value, leading zeros included, with or without a '+' sign. */
  lemma ParseU64Accepts(digits: string)
    requires digits != [] && AllDigits(digits) && DecimalValue(digits) < 0x1_0000_0000_0000_0000
    ensures ParseU64(digits) == Some(DecimalValue(digits) as u64)
    ensures ParseU64("+" + digits) == Some(DecimalValue(digits) as u64)
  {
    assert ("+" + digits)[1..] == digits;
  }

  /** Nothing and a bare sign do not parse, nor does a minus sign, since the
      type is unsigned. */
  lemma ParseU64RejectsSigns(n: nat)
    ensures ParseU64("") == None && ParseU64("+") == None && ParseU64("-") == None
    ensures ParseU64("-" + ToDecimal(n)) == None
  {
    var m := "-" + ToDecimal(n);
    assert m[0] == '-';
  }

  /** A decimal value of 2^64 or more overflows and does not parse. */
  lemma ParseU64RejectsOverflow(digits: string)
    requires digits != [] && AllDigits(digits) && DecimalValue(digits) >= 0x1_0000_0000_0000_0000
    ensures ParseU64(digits) == None && ParseU64("+" + digits) == None
  {
    assert ("+" + digits)[1..] == digits;
  }

  /** A string holding a character other than a digit, apart from one
      leading '+', does not parse. */
  lemma ParseU64RejectsNonDigit(s: string, i: nat)
    requires i < |s| && !IsDigit(s[i]) && (i > 0 || s[i] != '+')
    ensures ParseU64(s) == None
  {
    if s[0] == '+' {
      assert s[1..][i - 1] == s[i];
    }
  }

  // ---------------------------------------------------------------
  // Command dispatch
  // ---------------------------------------------------------------

  /** What one invocation does. */
  datatype Mode =
    | Daemon(interval: u64)
    | SingleShot(includeProcesses: bool)
    | ShowVersion
    | ShowUsage

  /** The daemon's interval in seconds when none is given or it does not read. */
  const DEFAULT_INTERVAL: u64 := 5

  /** The mode selected by the argument list; `args[0]` is the program name
      and arguments after the ones a command reads are ignored (the agent
      panics first if any argument is not valid Unicode). */
  function Dispatch(args: seq<string>): (m: Mode)
    ensures |args| <= 1 ==> m == SingleShot(false)
    ensures m.Daemon? && m.interval != DEFAULT_INTERVAL ==> |args| > 2 && ParseU64(args[2]) == Some(m.interval)
    ensures m == ShowUsage ==> |args| > 1 && args[1] !in ["daemon", "json", "json-processes", "version"]
  {
    if |args| <= 1 then SingleShot(false)
    else if args[1] == "daemon" then
      Daemon(if |args| > 2 then ParseU64(args[2]).GetOr(DEFAULT_INTERVAL) else DEFAULT_INTERVAL)
    else if args[1] == "json" then SingleShot(false)
    else if args[1] == "json-processes" then SingleShot(true)
    else if args[1] == "version" then ShowVersion
    else ShowUsage
  }

  /** Which arguments select which mode. */
  lemma DispatchModes(args: seq<string>)
    ensures Dispatch(args) == SingleShot(false) <==> |args| <= 1 || args[1] == "json"
    ensures Dispatch(args) == SingleShot(true) <==> |args| > 1 && args[1] == "json-processes"
    ensures Dispatch(args).Daemon? <==> |args| > 1 && args[1] == "daemon"
    ensures Dispatch(args) == ShowVersion <==> |args| > 1 && args[1] == "version"
    ensures Dispatch(args) == ShowUsage <==>
              |args| > 1 && args[1] !in ["daemon", "json", "json-processes", "version"]
  {
  }

  /** The daemon interval is the second argument when it reads as a u64,
      and 5 when it is missing or does not read. */
  lemma DaemonInterval(args: seq<string>)
    requires |args| > 1 && args[1] == "daemon"
    ensures |args| > 2 && ParseU64(args[2]).Some? ==> Dispatch(args) == Daemon(ParseU64(args[2]).value)
    ensures |args| == 2 || (|args| > 2 && ParseU64(args[2]) == None) ==> Dispatch(args) == Daemon(5)
  {
  }

  /** An argument list that selects `m`. */
  function CommandLine(m: Mode): seq<string> {
    match m
    case Daemon(interval) => ["stats-agent", "daemon", ToDecimal(interval as nat)]
    case SingleShot(includeProcesses) => ["stats-agent", if includeProcesses then "json-processes" else "json"]
    case ShowVersion => ["stats-agent", "version"]
    case ShowUsage => ["stats-agent", "help"]
  }

  /** Every mode is reachable, and dispatch recovers it from its command
      line; an interval written out in decimal reads back unchanged. */
  lemma DispatchCommandLine(m: Mode)
    ensures Dispatch(CommandLine(m)) == m
  {
  }

  // ---------------------------------------------------------------
  // Running a mode
  // ---------------------------------------------------------------

  /** What an invocation writes: one pretty-printed record, one compact
      record per daemon tick, the version line, or the usage text. */
  datatype Outcome =
    | Printed(record: Sampler.Record)
    | Streamed(interval: u64, records: seq<Sampler.Record>)
    | VersionLine(text: string)
    | UsageShown

  /** The record of daemon tick `t`: OS identity on tick 0 only, never a
      process list. */
  function DaemonRecord(os: OsInfo, sample: nat -> Readings, t: nat): (rec: Sampler.Record)
    ensures rec.os.Some? <==> t == 0
    ensures t == 0 ==> rec.os == Some(os)
    ensures rec.processes == None
  {
    Sampler.Emit(Sampler.Snapshot(if t == 0 then Some(os) else None, false, sample(t)))
  }

  /** The first `ticks` records of the daemon loop, where `sample(t)` is
      what the OS reports on tick `t`. */
  method DaemonMode(os: OsInfo, sample: nat -> Readings, ticks: nat) returns (records: seq<Sampler.Record>)
    ensures |records| == ticks
    ensures forall t :: 0 <= t < ticks ==> records[t] == DaemonRecord(os, sample, t)
    ensures forall t :: 0 <= t < ticks ==> records[t].os == if t == 0 then Some(os) else None
  {
    var first := true;
    var tick := 0;
    records := [];
    while tick < ticks
      invariant tick <= ticks && |records| == tick
      invariant first <==> tick == 0
      invariant forall t :: 0 <= t < tick ==> records[t] == DaemonRecord(os, sample, t)
    {
      var stats := Sampler.CollectStats(if first then Some(os) else None, false, sample(tick));
      first := false;
      records := records + [Sampler.Emit(stats)];
      tick := tick + 1;
    }
  }

  /** One warmed-up sample, with OS identity, emitted once. */
  method JsonOnce(os: OsInfo, includeProcesses: bool, r: Readings) returns (rec: Sampler.Record)
    ensures rec == Sampler.Emit(Sampler.Snapshot(Some(os), includeProcesses, r))
    ensures rec.os == Some(os)
    ensures rec.processes.Some? <==> includeProcesses && r.processes != []
  {
    var stats := Sampler.CollectStats(Some(os), includeProcesses, r);
    Sampler.ProcessesWritten(Some(os), includeProcesses, r);
    rec := Sampler.Emit(stats);
  }

  /** One invocation: `os` is what the OS identity lookup returns, `version`
      the package version, `sample(t)` the readings of tick `t`, and only
      the first `ticks` ticks of a daemon run are modelled. */
  method Run(args: seq<string>, os: OsInfo, version: string, sample: nat -> Readings, ticks: nat)
    returns (out: Outcome)
    ensures out == UsageShown <==> Dispatch(args) == ShowUsage
    ensures Dispatch(args) == ShowVersion ==> out == VersionLine("stats-agent v" + version)
    ensures Dispatch(args).SingleShot? ==>
              out == Printed(Sampler.Emit(Sampler.Snapshot(Some(os), Dispatch(args).includeProcesses, sample(0))))
    ensures Dispatch(args).Daemon? ==>
              out.Streamed? && out.interval == Dispatch(args).interval && |out.records| == ticks &&
              forall t :: 0 <= t < ticks ==> out.records[t] == DaemonRecord(os, sample, t)
  {
    match Dispatch(args)
    case Daemon(interval) =>
      var records := DaemonMode(os, sample, ticks);
      out := Streamed(interval, records);
    case SingleShot(includeProcesses) =>
      var rec := JsonOnce(os, includeProcesses, sample(0));
      out := Printed(rec);
    case ShowVersion =>
      out := VersionLine("stats-agent v" + version);
    case ShowUsage =>
      out := UsageShown;
  }
}

/**
 * The string logic of the one-shot device discovery: which thermal zones give
 * the CPU and GPU temperature paths, how many core directories there are,
 * which token of the kernel's version banner is its version, and the per-core
 * table parsed from `lscpu` and sorted by core number.  Directory listings,
 * file contents and command output are parameters.
 */
module Discover {
  import opened Wrappers
  import opened Text
  import opened Types
  import opened Sorting

  // ---------------------------------------------------------------------------
  // thermal zones
  // ---------------------------------------------------------------------------

  const THERMAL_DIR: string := "/sys/class/thermal"
  const DEFAULT_CPU_TEMP: string := "/sys/class/thermal/thermal_zone0/temp"
  const DEFAULT_GPU_TEMP: string := "/sys/class/thermal/thermal_zone1/temp"

  /**
   * An entry of the thermal directory: its file name and the contents of its
   * `type` file, or nothing when that file cannot be read.
   */
  datatype ThermalEntry = ThermalEntry(fileName: string, zoneType: Option<string>)

  /** The temperature file of a zone. */
  function TempPath(fileName: string): string {
    THERMAL_DIR + "/" + fileName + "/temp"
  }

  /** What a zone's type says it measures. */
  datatype ZoneRole = CpuZone | GpuZone | OtherZone

  /**
   * The trimmed, lower-cased type names the CPU when it contains `cpuss-0` or
   * `aoss-0`, and otherwise the GPU when it contains `gpuss-0`.
   */
  function RoleOf(zoneType: string): ZoneRole {
    var lower := ToAsciiLower(Trim(zoneType));
    if Contains(lower, "cpuss-0") || Contains(lower, "aoss-0") then CpuZone
    else if Contains(lower, "gpuss-0") then GpuZone
    else OtherZone
  }

  /** A zone whose type cannot be read plays no role. */
  function EntryRole(e: ThermalEntry): ZoneRole {
    match e.zoneType
    case Some(t) => RoleOf(t)
    case None => OtherZone
  }

  /** The entries whose names start with `thermal_zone`, in listing order. */
  function ThermalCandidates(entries: seq<ThermalEntry>): (r: seq<ThermalEntry>)
    ensures |r| <= |entries|
    ensures forall e :: e in r <==> e in entries && StartsWith(e.fileName, "thermal_zone")
  {
    if entries == [] then []
    else
      var init := ThermalCandidates(entries[..|entries| - 1]);
      var e := entries[|entries| - 1];
      assert entries == entries[..|entries| - 1] + [e];
      if StartsWith(e.fileName, "thermal_zone") then init + [e] else init
  }

  /** A file name as its sequence of code points, the key zones are sorted by. */
  function NameKey(e: ThermalEntry): (k: seq<int>)
    ensures |k| == |e.fileName| && forall i :: 0 <= i < |k| ==> k[i] == e.fileName[i] as int
  {
    seq(|e.fileName|, i requires 0 <= i < |e.fileName| => e.fileName[i] as int)
  }

  /** The CPU temperature path after scanning `zones` in order: the last CPU zone wins. */
  function CpuTempPath(zones: seq<ThermalEntry>): string {
    if zones == [] then DEFAULT_CPU_TEMP
    else if EntryRole(zones[|zones| - 1]) == CpuZone then TempPath(zones[|zones| - 1].fileName)
    else CpuTempPath(zones[..|zones| - 1])
  }

  /** The GPU temperature path after scanning `zones` in order: the last GPU zone wins. */
  function GpuTempPath(zones: seq<ThermalEntry>): string {
    if zones == [] then DEFAULT_GPU_TEMP
    else if EntryRole(zones[|zones| - 1]) == GpuZone then TempPath(zones[|zones| - 1].fileName)
    else GpuTempPath(zones[..|zones| - 1])
  }

  /** The CPU path is that of the last CPU zone. */
  lemma {:induction false} CpuPathLastMatch(zones: seq<ThermalEntry>, k: nat)
    requires k < |zones| && EntryRole(zones[k]) == CpuZone
    requires forall j :: k < j < |zones| ==> EntryRole(zones[j]) != CpuZone
    ensures CpuTempPath(zones) == TempPath(zones[k].fileName)
  {
    if k < |zones| - 1 {
      var init := zones[..|zones| - 1];
      assert init[k] == zones[k];
      CpuPathLastMatch(init, k);
    }
  }

  /** Without a CPU zone the CPU path is the default. */
  lemma {:induction false} CpuPathDefault(zones: seq<ThermalEntry>)
    requires forall j :: 0 <= j < |zones| ==> EntryRole(zones[j]) != CpuZone
    ensures CpuTempPath(zones) == DEFAULT_CPU_TEMP
  {
    if zones != [] {
      var init := zones[..|zones| - 1];
      assert forall j :: 0 <= j < |init| ==> init[j] == zones[j];
      CpuPathDefault(init);
    }
  }

  /** The GPU path is that of the last GPU zone. */
  lemma {:induction false} GpuPathLastMatch(zones: seq<ThermalEntry>, k: nat)
    requires k < |zones| && EntryRole(zones[k]) == GpuZone
    requires forall j :: k < j < |zones| ==> EntryRole(zones[j]) != GpuZone
    ensures GpuTempPath(zones) == TempPath(zones[k].fileName)
  {
    if k < |zones| - 1 {
      var init := zones[..|zones| - 1];
      assert init[k] == zones[k];
      GpuPathLastMatch(init, k);
    }
  }

  /** Without a GPU zone the GPU path is the default. */
  lemma {:induction false} GpuPathDefault(zones: seq<ThermalEntry>)
    requires forall j :: 0 <= j < |zones| ==> EntryRole(zones[j]) != GpuZone
    ensures GpuTempPath(zones) == DEFAULT_GPU_TEMP
  {
    if zones != [] {
      var init := zones[..|zones| - 1];
      assert forall j :: 0 <= j < |init| ==> init[j] == zones[j];
      GpuPathDefault(init);
    }
  }

  /** A type that names both the CPU and the GPU counts as the CPU's. */
  lemma CpuZoneFirst(zoneType: string)
    requires Contains(ToAsciiLower(Trim(zoneType)), "cpuss-0")
    ensures RoleOf(zoneType) == CpuZone
  {
  }

  // ---------------------------------------------------------------------------
  // core directories
  // ---------------------------------------------------------------------------

  /** `cpu` followed by an ASCII digit: `cpu0`, `cpu10`, but not `cpufreq` or `cpuidle`. */
  predicate IsCoreDir(name: string) {
    StartsWith(name, "cpu") && |name| > 3 && IsAsciiDigit(name[3])
  }

  /** How many names of a listing are core directories. */
  function CountCoreDirs(names: seq<string>): (n: nat)
    ensures n <= |names|
    ensures n == |names| <==> forall i :: 0 <= i < |names| ==> IsCoreDir(names[i])
    ensures n == 0 <==> forall i :: 0 <= i < |names| ==> !IsCoreDir(names[i])
  {
    if names == [] then 0
    else
      var init := names[..|names| - 1];
      assert forall i :: 0 <= i < |init| ==> init[i] == names[i];
      CountCoreDirs(init) + (if IsCoreDir(names[|names| - 1]) then 1 else 0)
  }

  /** The core count: 0 when the directory cannot be listed. */
  function CoreCount(listing: Option<seq<string>>): nat {
    match listing
    case Some(names) => CountCoreDirs(names)
    case None => 0
  }

  lemma CoreDirNames()
    ensures IsCoreDir("cpu0") && IsCoreDir("cpu10")
    ensures !IsCoreDir("cpufreq") && !IsCoreDir("cpuidle") && !IsCoreDir("cpu")
  {
    assert "cpu0"[..3] == "cpu" && "cpu10"[..3] == "cpu";
  }

  /** The count of a listing is the sum of the counts of its parts, whatever the order. */
  lemma {:induction false} CountCoreDirsAppend(a: seq<string>, b: seq<string>)
    ensures CountCoreDirs(a + b) == CountCoreDirs(a) + CountCoreDirs(b)
    decreases |b|
  {
    if b == [] {
      assert a + b == a;
    } else {
      var init := b[..|b| - 1];
      assert (a + b)[..|a + b| - 1] == a + init;
      assert (a + b)[|a + b| - 1] == b[|b| - 1];
      CountCoreDirsAppend(a, init);
    }
  }

  /** `cpu0`, `cpu1`, .. `cpu{k-1}`. */
  function NumberedCores(k: nat): (names: seq<string>)
    ensures |names| == k && forall i :: 0 <= i < k ==> names[i] == "cpu" + Decimal(i)
  {
    seq(k, i requires 0 <= i => "cpu" + Decimal(i))
  }

  /** A listing of `cpu0` .. `cpu{k-1}` counts `k`. */
  lemma CountNumberedCores(k: nat)
    ensures CountCoreDirs(NumberedCores(k)) == k
  {
    var names := NumberedCores(k);
    forall i | 0 <= i < k
      ensures IsCoreDir(names[i])
    {
      assert names[i][..3] == "cpu" && names[i][3] == Decimal(i)[0];
    }
  }

  // ---------------------------------------------------------------------------
  // kernel version
  // ---------------------------------------------------------------------------

  /**
   * The third whitespace-separated token of the version banner, or
   * `unknown`; a banner that cannot be read counts as empty.
   */
  function KernelVersion(banner: Option<string>): string {
    var ws := SplitWhitespace(banner.GetOr(""));
    if |ws| >= 3 then ws[2] else "unknown"
  }

  /** A banner of three or more words gives its third word. */
  lemma KernelVersionToken(ws: seq<string>)
    requires |ws| >= 3 && forall i :: 0 <= i < |ws| ==> IsWord(ws[i])
    ensures KernelVersion(Some(JoinWith(ws, " "))) == ws[2]
  {
    SplitJoinedWords(ws);
  }

  /** A banner of fewer words, or none, gives `unknown`. */
  lemma KernelVersionUnknown(ws: seq<string>)
    requires |ws| < 3 && forall i :: 0 <= i < |ws| ==> IsWord(ws[i])
    ensures KernelVersion(Some(JoinWith(ws, " "))) == "unknown"
    ensures KernelVersion(None) == "unknown"
  {
    SplitJoinedWords(ws);
    SplitJoinedWords([]);
  }

  // ---------------------------------------------------------------------------
  // lscpu
  // ---------------------------------------------------------------------------

  /**
   * An `lscpu -e=cpu,modelname,minmhz,maxmhz` row: the core name is `cpu`
   * and the first token, the model the tokens between it and the last two,
   * the frequencies the last two (0 when they do not parse).  A row with
   * fewer than three tokens after the first is skipped.
   */
  function ParseCoreLine(line: string, parseF32: F32Parser): Option<StaticCoreInfo> {
    CoreOfWords(SplitWhitespace(line), parseF32)
  }

  /** The core a row's words describe. */
  function CoreOfWords(ws: seq<string>, parseF32: F32Parser): Option<StaticCoreInfo> {
    if |ws| < 4 then None
    else
      Some(StaticCoreInfo(
        "cpu" + ws[0],
        JoinWith(ws[1..|ws| - 2], " "),
        Frequency(ws[|ws| - 2], parseF32),
        Frequency(ws[|ws| - 1], parseF32)))
  }

  /** A frequency column read as an `f32`, 0 when it does not parse. */
  function Frequency(tok: string, parseF32: F32Parser): real {
    parseF32(tok).GetOr(0.0)
  }

  /** A row of four or more words, read back. */
  lemma ParseCoreLineOfWords(ws: seq<string>, parseF32: F32Parser)
    requires |ws| >= 4 && forall i :: 0 <= i < |ws| ==> IsWord(ws[i])
    ensures ParseCoreLine(JoinWith(ws, " "), parseF32) ==
      Some(StaticCoreInfo("cpu" + ws[0], JoinWith(ws[1..|ws| - 2], " "),
                          Frequency(ws[|ws| - 2], parseF32), Frequency(ws[|ws| - 1], parseF32)))
  {
    SplitJoinedWords(ws);
    assert ParseCoreLine(JoinWith(ws, " "), parseF32) == CoreOfWords(ws, parseF32);
  }

  /** A row of fewer than four words is skipped. */
  lemma ShortCoreLine(ws: seq<string>, parseF32: F32Parser)
    requires |ws| < 4 && forall i :: 0 <= i < |ws| ==> IsWord(ws[i])
    ensures ParseCoreLine(JoinWith(ws, " "), parseF32).None?
  {
    SplitJoinedWords(ws);
  }

  /** The cores of the accepted rows, in row order. */
  function ParsedCores(rows: seq<string>, parseF32: F32Parser): (r: seq<StaticCoreInfo>)
    ensures |r| <= |rows|
  {
    if rows == [] then []
    else
      ParsedCores(rows[..|rows| - 1], parseF32) + Accepted(rows[|rows| - 1], parseF32)
  }

  /** The core of one row, as a list of at most one. */
  function Accepted(row: string, parseF32: F32Parser): seq<StaticCoreInfo> {
    if ParseCoreLine(row, parseF32).Some? then [ParseCoreLine(row, parseF32).value] else []
  }

  /** The cores of one more row. */
  lemma ParsedCoresStep(rows: seq<string>, k: nat, parseF32: F32Parser)
    requires k < |rows|
    ensures ParsedCores(rows[..k + 1], parseF32) == ParsedCores(rows[..k], parseF32) + Accepted(rows[k], parseF32)
  {
    var seen := rows[..k + 1];
    assert seen[..k] == rows[..k] && seen[k] == rows[k];
  }

  /** The lines of the output after the header line. */
  function DataRows(output: string): seq<string> {
    var ls := Lines(output);
    if ls == [] then [] else ls[1..]
  }

  /** The cores `lscpu` reports, before sorting. */
  function CoreListing(output: string, parseF32: F32Parser): seq<StaticCoreInfo> {
    ParsedCores(DataRows(output), parseF32)
  }

  /** The number after `cpu` in a core's name, 0 when it does not parse as a `usize`. */
  function CoreNumber(name: string): U64 {
    if |name| >= 3 then ParseU64(name[3..]).GetOr(0) else 0
  }

  /** The sort key of a core. */
  function CoreKey(c: StaticCoreInfo): seq<int> {
    [CoreNumber(c.name) as int]
  }

  /** A core named from `lscpu`'s first column is numbered by it. */
  lemma CoreNumberOfToken(tok: string)
    ensures CoreNumber("cpu" + tok) == ParseU64(tok).GetOr(0)
  {
    assert ("cpu" + tok)[3..] == tok;
  }

  /** `cpuN` is core N. */
  lemma CoreNumberOfDecimal(n: nat)
    requires n < U64_LIMIT
    ensures CoreNumber("cpu" + Decimal(n)) == n
  {
    CoreNumberOfToken(Decimal(n));
    ParseDecimal(n);
  }

  /** Sorted by key is ascending in core number. */
  lemma SortedByCoreNumber(cores: seq<StaticCoreInfo>)
    requires SortedBy(cores, CoreKey)
    ensures forall p, q :: 0 <= p < q < |cores| ==> CoreNumber(cores[p].name) <= CoreNumber(cores[q].name)
  {
    forall p, q | 0 <= p < q < |cores|
      ensures CoreNumber(cores[p].name) <= CoreNumber(cores[q].name)
    {
      LexLeSingle(CoreNumber(cores[p].name), CoreNumber(cores[q].name));
    }
  }

  // ---------------------------------------------------------------------------
  // the probes
  // ---------------------------------------------------------------------------

  /**
   * `probe_thermal_and_cores` without its file system: the thermal zones are
   * filtered and sorted by name, then scanned in that order, each CPU or GPU
   * zone replacing the path found so far; the core directories are counted.
   * Returns the zones in the order they were scanned.
   */
  method ProbeThermalAndCores(thermal: Option<seq<ThermalEntry>>, cpuDirs: Option<seq<string>>)
    returns (cpuTemp: string, gpuTemp: string, coreCount: nat, zones: seq<ThermalEntry>)
    ensures thermal.None? ==> zones == []
    ensures thermal.Some? ==> multiset(zones) == multiset(ThermalCandidates(thermal.value))
    ensures SortedBy(zones, NameKey)
    ensures cpuTemp == CpuTempPath(zones) && gpuTemp == GpuTempPath(zones)
    ensures coreCount == CoreCount(cpuDirs)
  {
    cpuTemp, gpuTemp := DEFAULT_CPU_TEMP, DEFAULT_GPU_TEMP;
    zones := [];
    if thermal.Some? {
      var candidates := ThermalCandidates(thermal.value);
      var a := new ThermalEntry[|candidates|](i requires 0 <= i < |candidates| => candidates[i]);
      assert a[..] == candidates;
      SortBy(a, NameKey);
      zones := a[..];
      for k := 0 to a.Length
        invariant zones == a[..]
        invariant cpuTemp == CpuTempPath(zones[..k]) && gpuTemp == GpuTempPath(zones[..k])
      {
        ghost var seen := zones[..k + 1];
        assert seen[..k] == zones[..k] && seen[k] == a[k];
        var entry := a[k];
        if entry.zoneType.Some? {
          var lower := ToAsciiLower(Trim(entry.zoneType.value));
          var tempPath := TempPath(entry.fileName);
          if Contains(lower, "cpuss-0") || Contains(lower, "aoss-0") {
            cpuTemp := tempPath;
          } else if Contains(lower, "gpuss-0") {
            gpuTemp := tempPath;
          }
        }
      }
      assert zones[..a.Length] == zones;
    }
    coreCount := CoreCount(cpuDirs);
  }

  /**
   * `probe_core_info` without running `lscpu`: every accepted row after the
   * header is pushed, then the list is sorted by core number.
   */
  method ProbeCoreInfo(output: string, parseF32: F32Parser) returns (cores: seq<StaticCoreInfo>)
    ensures multiset(cores) == multiset(CoreListing(output, parseF32))
    ensures SortedBy(cores, CoreKey)
    ensures forall p, q :: 0 <= p < q < |cores| ==> CoreNumber(cores[p].name) <= CoreNumber(cores[q].name)
  {
    var pushed := ParseRows(output, parseF32);
    var a := new StaticCoreInfo[|pushed|](i requires 0 <= i < |pushed| => pushed[i]);
    assert a[..] == pushed;
    SortBy(a, CoreKey);
    cores := a[..];
    SortedByCoreNumber(cores);
  }

  /** The loop over the data rows: each accepted row's core, in row order. */
  method ParseRows(output: string, parseF32: F32Parser) returns (pushed: seq<StaticCoreInfo>)
    ensures pushed == CoreListing(output, parseF32)
  {
    var rows := DataRows(output);
    pushed := [];
    for k := 0 to |rows|
      invariant pushed == ParsedCores(rows[..k], parseF32)
    {
      ParsedCoresStep(rows, k, parseF32);
      var parsed := ParseCoreLine(rows[k], parseF32);
      if parsed.Some? {
        pushed := pushed + [parsed.value];
      }
    }
    assert rows[..|rows|] == rows;
  }
}

/**
 * The sampler: each tick it reads one batch of response lines from the
 * privileged shell, parses them with a small state machine, updates the
 * per-core counter tables in place, and builds the per-core payload.
 *
 * Counters are `u64`; their `+=` is modelled with the wrap-around of a
 * release build.  Float parsing is the foreign `F32Parser`; float results are
 * reals.
 */
module Monitor {
  import opened Wrappers
  import opened Text
  import opened Types

  /** Ticks between two storage reads (30 s at two ticks a second). */
  const STORAGE_TICK_INTERVAL: nat := 60
  /** `/proc/stat` fields that count: user, nice, system, idle, iowait, irq, softirq, steal. */
  const STAT_FIELDS: nat := 8

  // ---------------------------------------------------------------------------
  // unsigned arithmetic
  // ---------------------------------------------------------------------------

  /** `u64::saturating_sub`. */
  function SatSub(a: nat, b: nat): (r: nat)
    ensures r <= a
    ensures b <= a ==> r + b == a
    ensures a < b ==> r == 0
  {
    if a >= b then a - b else 0
  }

  /** `u64 +=` in a release build: the sum modulo 2^64. */
  function WrapAdd(a: U64, b: U64): (r: U64)
    ensures a + b < U64_LIMIT ==> r == a + b
    ensures a + b >= U64_LIMIT ==> r < a && r < b
  {
    if a + b < U64_LIMIT then a + b else a + b - U64_LIMIT
  }

  /** Wrapping addition is addition modulo 2^64. */
  lemma WrapAddMod(a: nat, b: U64)
    ensures WrapAdd(a % U64_LIMIT, b) == (a + b) % U64_LIMIT
  {
    var q := a / U64_LIMIT;
    assert a == q * U64_LIMIT + a % U64_LIMIT;
    assert a + b == q * U64_LIMIT + (a % U64_LIMIT + b);
  }

  lemma ModSmall(x: nat)
    requires x < U64_LIMIT
    ensures x % U64_LIMIT == x
  {
  }

  /**
   * `f32 as u64`: truncation toward zero, saturating at both ends (a NaN is
   * not a real and is left out).
   */
  function FloatToU64(x: real): (r: U64)
    ensures x <= 0.0 ==> r == 0
    ensures 0.0 <= x < U64_LIMIT as real ==> r as real <= x < r as real + 1.0
    ensures x >= U64_LIMIT as real ==> r == U64_LIMIT - 1
  {
    if x <= 0.0 then 0
    else if x >= U64_LIMIT as real then U64_LIMIT - 1
    else x.Floor
  }

  // ---------------------------------------------------------------------------
  // parse_or_zero, parse_cpu_stat
  // ---------------------------------------------------------------------------

  /** `parse_or_zero`: the first word read as a float, or 0. */
  function ParseOrZero(s: string, parseF32: F32Parser): real {
    var ws := SplitWhitespace(s);
    if ws == [] then 0.0 else parseF32(ws[0]).GetOr(0.0)
  }

  /** Only the first word counts: words after it are ignored. */
  lemma ParseOrZeroFirstWord(ws: seq<string>, parseF32: F32Parser)
    requires forall i :: 0 <= i < |ws| ==> IsWord(ws[i])
    ensures ParseOrZero(JoinWith(ws, " "), parseF32) ==
      if ws == [] then 0.0 else parseF32(ws[0]).GetOr(0.0)
  {
    SplitJoinedWords(ws);
  }

  /** A counter token: its `u64` value, or 0 when it does not parse. */
  function FieldValue(tok: string): U64 {
    ParseU64(tok).GetOr(0)
  }

  /** How many words `parse_cpu_stat` looks at: at most the first eight. */
  function StatCount(toks: seq<string>): (n: nat)
    ensures n <= |toks| && n <= STAT_FIELDS
    ensures n == STAT_FIELDS || n == |toks|
  {
    if |toks| <= STAT_FIELDS then |toks| else STAT_FIELDS
  }

  /** The exact sum of the values of the first `n` tokens. */
  function TokenSum(toks: seq<string>, n: nat): nat
    requires n <= |toks|
  {
    if n == 0 then 0 else TokenSum(toks, n - 1) + FieldValue(toks[n - 1])
  }

  /** The exact sum of the values at positions 3 (idle) and 4 (iowait) among the first `n`. */
  function IdleSum(toks: seq<string>, n: nat): nat
    requires n <= |toks|
  {
    if n == 0 then 0
    else IdleSum(toks, n - 1) + (if n - 1 == 3 || n - 1 == 4 then FieldValue(toks[n - 1]) else 0)
  }

  /** `total` after a wrapping `+=` of each of the first `n` token values in turn. */
  function WrappedTotal(toks: seq<string>, n: nat): U64
    requires n <= |toks|
  {
    if n == 0 then 0 else WrapAdd(WrappedTotal(toks, n - 1), FieldValue(toks[n - 1]))
  }

  /** `idle` after a wrapping `+=` of the values at positions 3 and 4 among the first `n`. */
  function WrappedIdle(toks: seq<string>, n: nat): U64
    requires n <= |toks|
  {
    if n == 0 then 0
    else if n - 1 == 3 || n - 1 == 4 then WrapAdd(WrappedIdle(toks, n - 1), FieldValue(toks[n - 1]))
    else WrappedIdle(toks, n - 1)
  }

  /** Adding with wrap-around token by token is the exact sum modulo 2^64. */
  lemma {:induction false} WrappedTotalSum(toks: seq<string>, n: nat)
    requires n <= |toks|
    ensures WrappedTotal(toks, n) == TokenSum(toks, n) % U64_LIMIT
  {
    if n > 0 {
      WrappedTotalSum(toks, n - 1);
      WrapAddMod(TokenSum(toks, n - 1), FieldValue(toks[n - 1]));
    }
  }

  lemma {:induction false} WrappedIdleSum(toks: seq<string>, n: nat)
    requires n <= |toks|
    ensures WrappedIdle(toks, n) == IdleSum(toks, n) % U64_LIMIT
  {
    if n > 0 {
      WrappedIdleSum(toks, n - 1);
      if n - 1 == 3 || n - 1 == 4 {
        WrapAddMod(IdleSum(toks, n - 1), FieldValue(toks[n - 1]));
      }
    }
  }

  /** The sums depend only on the tokens they cover. */
  lemma {:induction false} WrappedTotalTake(a: seq<string>, m: nat, n: nat)
    requires n <= m <= |a|
    ensures WrappedTotal(a[..m], n) == WrappedTotal(a, n)
  {
    if n > 0 {
      WrappedTotalTake(a, m, n - 1);
      assert a[..m][n - 1] == a[n - 1];
    }
  }

  lemma {:induction false} WrappedIdleTake(a: seq<string>, m: nat, n: nat)
    requires n <= m <= |a|
    ensures WrappedIdle(a[..m], n) == WrappedIdle(a, n)
  {
    if n > 0 {
      WrappedIdleTake(a, m, n - 1);
      assert a[..m][n - 1] == a[n - 1];
    }
  }

  /** `parse_cpu_stat` as a value: both sums over the first eight words, wrapped to 64 bits. */
  function CpuStat(rest: string): CpuSnap {
    CpuSnap(WrappedTotal(SplitWhitespace(rest), StatCount(SplitWhitespace(rest))),
            WrappedIdle(SplitWhitespace(rest), StatCount(SplitWhitespace(rest))))
  }

  /** `parse_cpu_stat`: the loop over the first eight words. */
  method ParseCpuStat(rest: string) returns (total: U64, idle: U64)
    ensures CpuSnap(total, idle) == CpuStat(rest)
  {
    var toks := SplitWhitespace(rest);
    total, idle := 0, 0;
    var i := 0;
    while i < |toks| && i < STAT_FIELDS
      invariant i <= |toks| && i <= STAT_FIELDS
      invariant total == WrappedTotal(toks, i) && idle == WrappedIdle(toks, i)
    {
      var v := ParseU64(toks[i]);
      if v.Some? {
        total := WrapAdd(total, v.value);
        if i == 3 || i == 4 {
          idle := WrapAdd(idle, v.value);
        }
      }
      i := i + 1;
    }
  }

  /** Idle time is part of the total. */
  lemma {:induction false} IdleAtMostTotal(toks: seq<string>, n: nat)
    requires n <= |toks|
    ensures IdleSum(toks, n) <= TokenSum(toks, n)
  {
    if n > 0 {
      IdleAtMostTotal(toks, n - 1);
    }
  }

  /** Without wrap-around, `idle <= total`. */
  lemma CpuStatIdleAtMostTotal(rest: string)
    requires TokenSum(SplitWhitespace(rest), StatCount(SplitWhitespace(rest))) < U64_LIMIT
    ensures CpuStat(rest).idle <= CpuStat(rest).total
  {
    var toks := SplitWhitespace(rest);
    var n := StatCount(toks);
    IdleAtMostTotal(toks, n);
    WrappedTotalSum(toks, n);
    WrappedIdleSum(toks, n);
    ModSmall(TokenSum(toks, n));
    ModSmall(IdleSum(toks, n));
  }

  /** Words after the eighth do not change the result. */
  lemma CpuStatFirstEight(ws: seq<string>)
    requires |ws| > STAT_FIELDS && forall i :: 0 <= i < |ws| ==> IsWord(ws[i])
    ensures CpuStat(JoinWith(ws, " ")) == CpuStat(JoinWith(ws[..STAT_FIELDS], " "))
  {
    var head := ws[..STAT_FIELDS];
    assert forall i :: 0 <= i < |head| ==> IsWord(head[i]) by {
      forall i | 0 <= i < |head| ensures IsWord(head[i]) { assert head[i] == ws[i]; }
    }
    SplitJoinedWords(ws);
    SplitJoinedWords(head);
    assert StatCount(ws) == STAT_FIELDS && StatCount(head) == STAT_FIELDS;
    WrappedTotalTake(ws, STAT_FIELDS, STAT_FIELDS);
    WrappedIdleTake(ws, STAT_FIELDS, STAT_FIELDS);
    assert CpuStat(JoinWith(ws, " ")) == CpuSnap(WrappedTotal(ws, STAT_FIELDS), WrappedIdle(ws, STAT_FIELDS));
    assert CpuStat(JoinWith(head, " ")) == CpuSnap(WrappedTotal(head, STAT_FIELDS), WrappedIdle(head, STAT_FIELDS));
  }

  // ---------------------------------------------------------------------------
  // usage
  // ---------------------------------------------------------------------------

  /**
   * The busy share of the elapsed jiffies, in percent, with the busy count
   * never below zero.
   */
  function Usage(dt: nat, di: nat): (u: real)
    requires dt > 0
    ensures 0.0 <= u <= 100.0
    ensures di <= dt ==> u == ((dt - di) as real) / (dt as real) * 100.0
    ensures di >= dt ==> u == 0.0
  {
    var busy := SatSub(dt, di);
    assert busy as real <= dt as real;
    (busy as real) / (dt as real) * 100.0
  }

  /** Line 190 as written: `dt - di` in `u64`, wrapping when `di > dt`. */
  function UsageAsWritten(dt: nat, di: nat): real
    requires dt > 0
  {
    (((dt - di) % U64_LIMIT) as real) / (dt as real) * 100.0
  }

  /** When the idle delta does not exceed the total delta the two agree. */
  lemma UsageAsWrittenAgrees(dt: nat, di: nat)
    requires 0 < dt < U64_LIMIT && di <= dt
    ensures UsageAsWritten(dt, di) == Usage(dt, di)
  {
  }

  /**
   * A core whose counters went from (total 100, idle 10) to (150, 80):
   * 50 jiffies elapsed, 70 of them idle, and the written formula reports far
   * more than 100 percent.
   */
  lemma UsageAsWrittenOverflows()
    ensures var dt, di := SatSub(150, 100), SatSub(80, 10);
      dt == 50 && di == 70 && UsageAsWritten(dt, di) > 100.0 && Usage(dt, di) == 0.0
  {
    var d: int := 50 - 70;
    assert d % U64_LIMIT == U64_LIMIT - 20;
  }

  // ---------------------------------------------------------------------------
  // the per-batch state machine
  // ---------------------------------------------------------------------------

  /** What one batch reports besides the per-core tables. */
  datatype BatchReading = BatchReading(
    uptimeSeconds: U64,
    batteryLevel: int,
    /** The code handed to `BatteryStatus::from_code`; `None` leaves `Unknown`. */
    batteryStatusCode: Option<int>,
    batteryTemp: real,
    rxBytes: U64,
    txBytes: U64,
    brightness: real,
    refreshRate: real)

  const InitialReading := BatchReading(0, 0, None, 0.0, 0, 0, 0.0, 0.0)

  /** The loop's variables: reading, section and found flags, and the two core tables. */
  datatype BatchState = BatchState(
    reading: BatchReading,
    inNet: bool,
    inDisplay: bool,
    brightnessFound: bool,
    refreshRateFound: bool,
    snaps: seq<CpuSnap>,
    usages: seq<real>)

  /** The state at the start of a batch: usages zeroed, snaps carried over. */
  function InitialState(snaps: seq<CpuSnap>): (st: BatchState)
    ensures |st.usages| == |st.snaps| == |snaps|
  {
    BatchState(InitialReading, false, false, false, false, snaps, seq(|snaps|, i => 0.0))
  }

  /** The four section markers, and every other line. */
  datatype LineKind = NetStart | NetEnd | DisplayStart | DisplayEnd | Content

  /** What a trimmed line is to the parser. */
  function KindOf(line: string): (k: LineKind)
    ensures k == NetStart <==> line == "NET_DATA"
    ensures k == NetEnd <==> line == "NET_END"
    ensures k == DisplayStart <==> line == "DISPLAY_DATA"
    ensures k == DisplayEnd <==> line == "DISPLAY_END"
  {
    if line == "NET_DATA" then NetStart
    else if line == "NET_END" then NetEnd
    else if line == "DISPLAY_DATA" then DisplayStart
    else if line == "DISPLAY_END" then DisplayEnd
    else Content
  }

  predicate IsMarker(line: string) {
    KindOf(line) != Content
  }

  /** A `/proc/net/dev` row: received and sent bytes, unless it is `lo`, short or has no `:`. */
  function NetDelta(line: string): Option<(U64, U64)> {
    var cut := SplitOnce(line, ':');
    if cut.None? || Trim(cut.value.0) == "lo" then None
    else
      var fields := SplitWhitespace(cut.value.1);
      if |fields| >= 10 then Some((FieldValue(fields[0]), FieldValue(fields[8]))) else None
  }

  /**
   * A row whose interface is not `lo` and that has ten or more fields
   * contributes its fields 0 and 8.
   */
  lemma NetDeltaOfRow(iface: string, ws: seq<string>)
    requires ':' !in iface && Trim(iface) != "lo"
    requires |ws| >= 10 && forall i :: 0 <= i < |ws| ==> IsWord(ws[i])
    ensures NetDelta(iface + ":" + JoinWith(ws, " ")) == Some((FieldValue(ws[0]), FieldValue(ws[8])))
  {
    SplitOnceAt(iface, JoinWith(ws, " "), ':');
    SplitJoinedWords(ws);
  }

  /** A network row adds its byte counts and changes nothing else. */
  function NetStep(st: BatchState, line: string): (r: BatchState)
    ensures r.(reading := st.reading) == st
    ensures r.reading.(rxBytes := st.reading.rxBytes, txBytes := st.reading.txBytes) == st.reading
    ensures NetDelta(line).None? ==> r == st
  {
    var d := NetDelta(line);
    if d.None? then st
    else
      st.(reading := st.reading.(rxBytes := WrapAdd(st.reading.rxBytes, d.value.0),
                                 txBytes := WrapAdd(st.reading.txBytes, d.value.1)))
  }

  /**
   * A display row: the first `mBrightness=` row sets the brightness, the first
   * `mActiveRenderFrameRate=` row the refresh rate; nothing else changes.
   */
  function DisplayStep(st: BatchState, line: string, parseF32: F32Parser): (r: BatchState)
    ensures r.snaps == st.snaps && r.usages == st.usages && r.inNet == st.inNet && r.inDisplay == st.inDisplay
    ensures r.reading.(brightness := st.reading.brightness, refreshRate := st.reading.refreshRate) == st.reading
    ensures st.brightnessFound ==> r.brightnessFound && r.reading.brightness == st.reading.brightness
    ensures st.refreshRateFound ==> r.refreshRateFound && r.reading.refreshRate == st.reading.refreshRate
  {
    if StripPrefix(line, "mBrightness=").Some? then
      if st.brightnessFound then st
      else
        var val := StripPrefix(line, "mBrightness=").value;
        st.(reading := st.reading.(brightness := parseF32(val).GetOr(0.0)), brightnessFound := true)
    else if StripPrefix(line, "mActiveRenderFrameRate=").Some? then
      if st.refreshRateFound then st
      else
        var val := StripPrefix(line, "mActiveRenderFrameRate=").value;
        st.(reading := st.reading.(refreshRate := parseF32(val).GetOr(0.0)), refreshRateFound := true)
    else st
  }

  /**
   * The first brightness row sets the brightness and its flag, the first
   * refresh-rate row that is not a brightness row sets the refresh rate and
   * its flag, and any other row changes nothing.
   */
  lemma DisplayStepSets(st: BatchState, line: string, parseF32: F32Parser)
    ensures var r := DisplayStep(st, line, parseF32);
      StripPrefix(line, "mBrightness=").Some? ==>
        r.brightnessFound && r.refreshRateFound == st.refreshRateFound && r.reading.refreshRate == st.reading.refreshRate &&
        (!st.brightnessFound ==> r.reading.brightness == parseF32(StripPrefix(line, "mBrightness=").value).GetOr(0.0))
    ensures var r := DisplayStep(st, line, parseF32);
      StripPrefix(line, "mBrightness=").None? && StripPrefix(line, "mActiveRenderFrameRate=").Some? ==>
        r.refreshRateFound && r.brightnessFound == st.brightnessFound && r.reading.brightness == st.reading.brightness &&
        (!st.refreshRateFound ==> r.reading.refreshRate == parseF32(StripPrefix(line, "mActiveRenderFrameRate=").value).GetOr(0.0))
    ensures StripPrefix(line, "mBrightness=").None? && StripPrefix(line, "mActiveRenderFrameRate=").None? ==>
      DisplayStep(st, line, parseF32) == st
  {
  }

  /** The core a tag addresses: `cpu` then a `usize` below the core count. */
  function CoreIndex(tag: string, coreLen: nat): (r: Option<nat>)
    ensures r.Some? ==> r.value < coreLen && StartsWith(tag, "cpu")
  {
    if StartsWith(tag, "cpu") && ParseU64(tag[3..]).Some? && ParseU64(tag[3..]).value < coreLen then
      Some(ParseU64(tag[3..]).value)
    else None
  }

  /** `cpuN` addresses core N exactly when N is below the core count. */
  lemma CoreIndexOfName(n: nat, coreLen: nat)
    requires n < U64_LIMIT
    ensures CoreIndex("cpu" + Decimal(n), coreLen) == if n < coreLen then Some(n) else None
  {
    var tag := "cpu" + Decimal(n);
    assert tag[..3] == "cpu" && tag[3..] == Decimal(n);
    ParseDecimal(n);
  }

  /** The aggregate line and directory-like names address no core. */
  lemma CoreIndexRejects(coreLen: nat)
    ensures CoreIndex("cpu", coreLen).None?
    ensures CoreIndex("cpufreq", coreLen).None?
    ensures CoreIndex("intr", coreLen).None?
  {
    assert "cpu"[3..] == [];
    assert "cpufreq"[3..] == "freq";
    assert !IsAsciiDigit("freq"[0]);
  }

  /**
   * The counter update of one core: the snapshot is always replaced; the
   * usage is rewritten only when some time elapsed.
   */
  function CoreUpdate(snaps: seq<CpuSnap>, usages: seq<real>, idx: nat, cur: CpuSnap): (r: (seq<CpuSnap>, seq<real>))
    requires idx < |snaps| && idx < |usages|
    ensures |r.0| == |snaps| && |r.1| == |usages|
    ensures r.0[idx] == cur
    ensures forall i :: 0 <= i < |snaps| && i != idx ==> r.0[i] == snaps[i]
    ensures forall i :: 0 <= i < |usages| && i != idx ==> r.1[i] == usages[i]
    ensures r.1[idx] == if SatSub(cur.total, snaps[idx].total) > 0
      then Usage(SatSub(cur.total, snaps[idx].total), SatSub(cur.idle, snaps[idx].idle))
      else usages[idx]
    ensures UsagesInRange(usages) ==> UsagesInRange(r.1)
  {
    var dt := SatSub(cur.total, snaps[idx].total);
    var di := SatSub(cur.idle, snaps[idx].idle);
    (snaps[idx := cur], if dt > 0 then usages[idx := Usage(dt, di)] else usages)
  }

  predicate UsagesInRange(us: seq<real>) {
    forall i :: 0 <= i < |us| ==> 0.0 <= us[i] <= 100.0
  }

  /** The tags a normal line can start with that are not core names. */
  datatype Tag = UptimeTag | CpuTotalTag | LevelTag | StatusTag | TemperatureTag | OtherTag

  function TagOf(tag: string): (t: Tag)
    ensures t == UptimeTag <==> tag == "UPTIME"
    ensures t == CpuTotalTag <==> tag == "cpu"
    ensures t == LevelTag <==> tag == "level:"
    ensures t == StatusTag <==> tag == "status:"
    ensures t == TemperatureTag <==> tag == "temperature:"
  {
    if tag == "UPTIME" then UptimeTag
    else if tag == "cpu" then CpuTotalTag
    else if tag == "level:" then LevelTag
    else if tag == "status:" then StatusTag
    else if tag == "temperature:" then TemperatureTag
    else OtherTag
  }

  /** The battery and uptime lines: the field their tag names, read from the rest of the line. */
  function TagReading(reading: BatchReading, tag: string, rest: string, parseF32: F32Parser): (r: BatchReading)
    ensures r.(uptimeSeconds := reading.uptimeSeconds, batteryLevel := reading.batteryLevel,
               batteryStatusCode := reading.batteryStatusCode, batteryTemp := reading.batteryTemp) == reading
  {
    match TagOf(tag)
    case UptimeTag => reading.(uptimeSeconds := FloatToU64(ParseOrZero(rest, parseF32)))
    case LevelTag => reading.(batteryLevel := ParseI32(Trim(rest)).GetOr(0))
    case StatusTag => reading.(batteryStatusCode := Some(ParseI32(Trim(rest)).GetOr(0)))
    case TemperatureTag => reading.(batteryTemp := ParseOrZero(Trim(rest), parseF32) / 10.0)
    case _ => reading
  }

  /**
   * A normal line split into its tag and the rest: uptime and the battery
   * fields, the aggregate `cpu` line (ignored) and the per-core lines.
   */
  function TagStep(st: BatchState, tag: string, rest: string, parseF32: F32Parser): (r: BatchState)
    requires |st.usages| == |st.snaps|
    ensures |r.snaps| == |st.snaps| && |r.usages| == |st.usages|
  {
    if TagOf(tag) != OtherTag then
      st.(reading := TagReading(st.reading, tag, rest, parseF32))
    else
      var idx := CoreIndex(tag, |st.snaps|);
      if idx.None? then st
      else
        var u := CoreUpdate(st.snaps, st.usages, idx.value, CpuStat(rest));
        st.(snaps := u.0, usages := u.1)
  }

  /** A normal line: its tag is the text before the first white space. */
  function NormalStep(st: BatchState, line: string, parseF32: F32Parser): (r: BatchState)
    requires |st.usages| == |st.snaps|
    ensures |r.snaps| == |st.snaps| && |r.usages| == |st.usages|
  {
    TagStep(st, SplitAtWhitespace(line).0, SplitAtWhitespace(line).1, parseF32)
  }

  /** The tag a line has when the normal section reads it. */
  function LineTag(rawLine: string): string {
    SplitAtWhitespace(Trim(rawLine)).0
  }

  /** Whether a line, read in the normal section, updates core `idx`. */
  predicate AddressesCore(rawLine: string, coreLen: nat, idx: nat) {
    CoreIndex(LineTag(rawLine), coreLen) == Some(idx)
  }

  /**
   * One line that is not the end marker: trimmed; a section marker sets or
   * clears its flag; the network section comes before the display section,
   * which comes before the normal lines.
   */
  function Step(st: BatchState, rawLine: string, parseF32: F32Parser): (r: BatchState)
    requires |st.usages| == |st.snaps|
    ensures |r.snaps| == |st.snaps| && |r.usages| == |st.usages|
  {
    var line := Trim(rawLine);
    match KindOf(line)
    case NetStart => st.(inNet := true)
    case NetEnd => st.(inNet := false)
    case DisplayStart => st.(inDisplay := true)
    case DisplayEnd => st.(inDisplay := false)
    case Content =>
      if st.inNet then NetStep(st, line)
      else if st.inDisplay then DisplayStep(st, line, parseF32)
      else NormalStep(st, line, parseF32)
  }

  /** A normal line leaves the flags and the display and network values alone. */
  lemma TagStepKeeps(st: BatchState, tag: string, rest: string, parseF32: F32Parser)
    requires |st.usages| == |st.snaps|
    ensures TagStep(st, tag, rest, parseF32).inNet == st.inNet
    ensures TagStep(st, tag, rest, parseF32).inDisplay == st.inDisplay
    ensures TagStep(st, tag, rest, parseF32).brightnessFound == st.brightnessFound
    ensures TagStep(st, tag, rest, parseF32).refreshRateFound == st.refreshRateFound
    ensures TagStep(st, tag, rest, parseF32).reading.brightness == st.reading.brightness
    ensures TagStep(st, tag, rest, parseF32).reading.refreshRate == st.reading.refreshRate
    ensures TagStep(st, tag, rest, parseF32).reading.rxBytes == st.reading.rxBytes
    ensures TagStep(st, tag, rest, parseF32).reading.txBytes == st.reading.txBytes
  {
    var r := TagStep(st, tag, rest, parseF32);
    if TagOf(tag) == OtherTag {
      assert r.reading == st.reading && r.inNet == st.inNet && r.inDisplay == st.inDisplay;
    }
  }

  /** A normal line changes only the core its tag addresses, and keeps usages percentages. */
  lemma TagStepCores(st: BatchState, tag: string, rest: string, parseF32: F32Parser)
    requires |st.usages| == |st.snaps|
    ensures forall i :: 0 <= i < |st.snaps| && CoreIndex(tag, |st.snaps|) != Some(i) ==>
      TagStep(st, tag, rest, parseF32).snaps[i] == st.snaps[i] && TagStep(st, tag, rest, parseF32).usages[i] == st.usages[i]
    ensures UsagesInRange(st.usages) ==> UsagesInRange(TagStep(st, tag, rest, parseF32).usages)
  {
    var r := TagStep(st, tag, rest, parseF32);
    if TagOf(tag) == OtherTag {
      var idx := CoreIndex(tag, |st.snaps|);
      if idx.Some? {
        var u := CoreUpdate(st.snaps, st.usages, idx.value, CpuStat(rest));
        assert r == st.(snaps := u.0, usages := u.1);
      } else {
        assert r == st;
      }
    } else {
      assert r.snaps == st.snaps && r.usages == st.usages;
    }
  }

  /**
   * One line changes only a core it addresses, keeps usages percentages,
   * and keeps a display value once found.
   */
  lemma StepFrame(st: BatchState, rawLine: string, parseF32: F32Parser)
    requires |st.usages| == |st.snaps|
    ensures forall i :: 0 <= i < |st.snaps| && !AddressesCore(rawLine, |st.snaps|, i) ==>
      Step(st, rawLine, parseF32).snaps[i] == st.snaps[i] && Step(st, rawLine, parseF32).usages[i] == st.usages[i]
    ensures UsagesInRange(st.usages) ==> UsagesInRange(Step(st, rawLine, parseF32).usages)
    ensures st.brightnessFound ==>
      Step(st, rawLine, parseF32).brightnessFound && Step(st, rawLine, parseF32).reading.brightness == st.reading.brightness
    ensures st.refreshRateFound ==>
      Step(st, rawLine, parseF32).refreshRateFound && Step(st, rawLine, parseF32).reading.refreshRate == st.reading.refreshRate
  {
    var line := Trim(rawLine);
    if KindOf(line) == Content && !st.inNet && !st.inDisplay {
      NormalFrame(st, rawLine, parseF32);
    } else {
      SectionFrame(st, rawLine, parseF32);
    }
  }

  /** What `StepFrame` promises of one step from `st` to `r`. */
  ghost predicate KeepsFrame(st: BatchState, r: BatchState, rawLine: string) {
    |st.usages| == |st.snaps| && |r.snaps| == |st.snaps| && |r.usages| == |st.usages| &&
    (forall i :: 0 <= i < |st.snaps| && !AddressesCore(rawLine, |st.snaps|, i) ==>
      r.snaps[i] == st.snaps[i] && r.usages[i] == st.usages[i]) &&
    (UsagesInRange(st.usages) ==> UsagesInRange(r.usages)) &&
    (st.brightnessFound ==> r.brightnessFound && r.reading.brightness == st.reading.brightness) &&
    (st.refreshRateFound ==> r.refreshRateFound && r.reading.refreshRate == st.reading.refreshRate)
  }

  lemma NormalFrame(st: BatchState, rawLine: string, parseF32: F32Parser)
    requires |st.usages| == |st.snaps|
    requires KindOf(Trim(rawLine)) == Content && !st.inNet && !st.inDisplay
    ensures KeepsFrame(st, Step(st, rawLine, parseF32), rawLine)
  {
    var line := Trim(rawLine);
    var tag, rest := SplitAtWhitespace(line).0, SplitAtWhitespace(line).1;
    assert Step(st, rawLine, parseF32) == TagStep(st, tag, rest, parseF32);
    assert tag == LineTag(rawLine);
    TagStepKeeps(st, tag, rest, parseF32);
    TagStepCores(st, tag, rest, parseF32);
  }

  lemma SectionFrame(st: BatchState, rawLine: string, parseF32: F32Parser)
    requires |st.usages| == |st.snaps|
    requires KindOf(Trim(rawLine)) != Content || st.inNet || st.inDisplay
    ensures KeepsFrame(st, Step(st, rawLine, parseF32), rawLine)
  {
    var line := Trim(rawLine);
    var r := Step(st, rawLine, parseF32);
    if KindOf(line) != Content {
      assert r.snaps == st.snaps && r.usages == st.usages && r.reading == st.reading;
    } else if st.inNet {
      assert r == NetStep(st, line);
      assert r.snaps == st.snaps && r.usages == st.usages;
    } else {
      assert r == DisplayStep(st, line, parseF32);
    }
  }

  /** The lines in order. */
  function FoldSteps(st: BatchState, lines: seq<string>, parseF32: F32Parser): (r: BatchState)
    requires |st.usages| == |st.snaps|
    ensures |r.snaps| == |st.snaps| && |r.usages| == |st.usages|
  {
    if lines == [] then st
    else Step(FoldSteps(st, lines[..|lines| - 1], parseF32), lines[|lines| - 1], parseF32)
  }

  /** One more line is one more step. */
  lemma FoldStepsStep(st: BatchState, lines: seq<string>, k: nat, parseF32: F32Parser)
    requires |st.usages| == |st.snaps| && k < |lines|
    ensures FoldSteps(st, lines[..k + 1], parseF32) == Step(FoldSteps(st, lines[..k], parseF32), lines[k], parseF32)
  {
    var pre := lines[..k + 1];
    assert pre[..k] == lines[..k] && pre[k] == lines[k];
  }

  /** The line that ends a batch. */
  predicate IsBatchEnd(line: string) {
    Trim(line) == "END_OF_BATCH"
  }

  /** Which lines end a batch. */
  function BatchEnds(lines: seq<string>): (ends: seq<bool>)
    ensures |ends| == |lines| && forall i :: 0 <= i < |lines| ==> ends[i] == IsBatchEnd(lines[i])
  {
    seq(|lines|, i requires 0 <= i < |lines| => IsBatchEnd(lines[i]))
  }

  /** The position of the first mark from `i` on, or the number of marks. */
  function StopFrom(ends: seq<bool>, i: nat): (k: nat)
    requires i <= |ends|
    ensures i <= k <= |ends| && (k < |ends| ==> ends[k])
    ensures forall j :: i <= j < k ==> !ends[j]
    decreases |ends| - i
  {
    if i == |ends| || ends[i] then i else StopFrom(ends, i + 1)
  }

  /** The position of the first line that trims to `END_OF_BATCH`, or the number of lines. */
  function StopIndex(lines: seq<string>): (k: nat)
    ensures k <= |lines| && (k < |lines| ==> IsBatchEnd(lines[k]))
    ensures forall i :: 0 <= i < k ==> !IsBatchEnd(lines[i])
  {
    StopFrom(BatchEnds(lines), 0)
  }

  /** The lines a batch takes from the stream: through the end marker, if there is one. */
  function Consumed(lines: seq<string>): (n: nat)
    ensures n <= |lines|
  {
    var k := StopIndex(lines);
    if k < |lines| then k + 1 else k
  }

  /** One batch from the carried-over snapshots. */
  function RunBatch(snaps: seq<CpuSnap>, lines: seq<string>, parseF32: F32Parser): (st: BatchState)
    ensures |st.snaps| == |st.usages| == |snaps|
  {
    FoldSteps(InitialState(snaps), lines[..StopIndex(lines)], parseF32)
  }

  // ---------------------------------------------------------------------------
  // properties of a batch
  // ---------------------------------------------------------------------------

  /** Every usage a batch reports is a percentage. */
  lemma {:induction false} FoldUsagesInRange(st: BatchState, lines: seq<string>, parseF32: F32Parser)
    requires |st.usages| == |st.snaps| && UsagesInRange(st.usages)
    ensures UsagesInRange(FoldSteps(st, lines, parseF32).usages)
  {
    if lines != [] {
      FoldUsagesInRange(st, lines[..|lines| - 1], parseF32);
      StepFrame(FoldSteps(st, lines[..|lines| - 1], parseF32), lines[|lines| - 1], parseF32);
    }
  }

  lemma BatchUsagesInRange(snaps: seq<CpuSnap>, lines: seq<string>, parseF32: F32Parser)
    ensures UsagesInRange(RunBatch(snaps, lines, parseF32).usages)
  {
    FoldUsagesInRange(InitialState(snaps), lines[..StopIndex(lines)], parseF32);
  }

  /**
   * A core that no line of the batch addresses keeps its snapshot and
   * reports usage 0.
   */
  lemma {:induction false} FoldKeepsCore(st: BatchState, lines: seq<string>, parseF32: F32Parser, idx: nat)
    requires |st.usages| == |st.snaps| && idx < |st.snaps|
    requires forall i :: 0 <= i < |lines| ==> !AddressesCore(lines[i], |st.snaps|, idx)
    ensures FoldSteps(st, lines, parseF32).snaps[idx] == st.snaps[idx]
    ensures FoldSteps(st, lines, parseF32).usages[idx] == st.usages[idx]
  {
    if lines != [] {
      var init := lines[..|lines| - 1];
      assert forall i :: 0 <= i < |init| ==> init[i] == lines[i];
      FoldKeepsCore(st, init, parseF32, idx);
      StepFrame(FoldSteps(st, init, parseF32), lines[|lines| - 1], parseF32);
    }
  }

  lemma BatchKeepsCore(snaps: seq<CpuSnap>, lines: seq<string>, parseF32: F32Parser, idx: nat)
    requires idx < |snaps|
    requires forall i :: 0 <= i < |lines| ==> !AddressesCore(lines[i], |snaps|, idx)
    ensures RunBatch(snaps, lines, parseF32).snaps[idx] == snaps[idx]
    ensures RunBatch(snaps, lines, parseF32).usages[idx] == 0.0
  {
    var taken := lines[..StopIndex(lines)];
    assert forall i :: 0 <= i < |taken| ==> taken[i] == lines[i];
    FoldKeepsCore(InitialState(snaps), taken, parseF32, idx);
  }

  /** Outside the two sections, a line that is not a marker is a normal line. */
  lemma StepNormal(st: BatchState, rawLine: string, parseF32: F32Parser)
    requires |st.usages| == |st.snaps| && !st.inNet && !st.inDisplay && !IsMarker(Trim(rawLine))
    ensures Step(st, rawLine, parseF32) == NormalStep(st, Trim(rawLine), parseF32)
  {
  }

  /** A normal line tagged `cpuN`, N below the core count, is a counter update of core N. */
  lemma NormalCoreLine(st: BatchState, line: string, n: nat, parseF32: F32Parser)
    requires |st.usages| == |st.snaps| && n < |st.snaps| && n < U64_LIMIT
    requires SplitAtWhitespace(line).0 == "cpu" + Decimal(n)
    ensures NormalStep(st, line, parseF32) ==
      st.(snaps := CoreUpdate(st.snaps, st.usages, n, CpuStat(SplitAtWhitespace(line).1)).0,
          usages := CoreUpdate(st.snaps, st.usages, n, CpuStat(SplitAtWhitespace(line).1)).1)
  {
    var tag := SplitAtWhitespace(line).0;
    CoreIndexOfName(n, |st.snaps|);
    assert tag[0] == 'c' && |tag| > 3;
    assert TagOf(tag) == OtherTag;
  }

  /**
   * Outside the two sections, a line tagged `cpuN` with N below the core
   * count replaces core N's snapshot by the counters of the rest of the line,
   * and rewrites its usage when time elapsed.
   */
  lemma CoreLineStep(st: BatchState, rawLine: string, n: nat, parseF32: F32Parser)
    requires |st.usages| == |st.snaps| && n < |st.snaps| && n < U64_LIMIT
    requires !st.inNet && !st.inDisplay
    requires LineTag(rawLine) == "cpu" + Decimal(n)
    ensures Step(st, rawLine, parseF32) ==
      st.(snaps := CoreUpdate(st.snaps, st.usages, n, CpuStat(SplitAtWhitespace(Trim(rawLine)).1)).0,
          usages := CoreUpdate(st.snaps, st.usages, n, CpuStat(SplitAtWhitespace(Trim(rawLine)).1)).1)
  {
    CoreTagIsContent(rawLine, n);
    StepNormal(st, rawLine, parseF32);
    NormalCoreLine(st, Trim(rawLine), n, parseF32);
  }

  /** A line tagged `cpuN` is not a section marker. */
  lemma CoreTagIsContent(rawLine: string, n: nat)
    requires LineTag(rawLine) == "cpu" + Decimal(n)
    ensures KindOf(Trim(rawLine)) == Content
  {
    var line := Trim(rawLine);
    var tag := SplitAtWhitespace(line).0;
    assert tag[0] == 'c' && tag == line[..|tag|];
    assert line[0] == 'c';
    assert line != "NET_DATA" && line != "NET_END" && line != "DISPLAY_DATA" && line != "DISPLAY_END";
  }

  /** Once the brightness or the refresh rate is found, later lines leave it alone. */
  lemma {:induction false} DisplayFirstOnly(st: BatchState, lines: seq<string>, parseF32: F32Parser)
    requires |st.usages| == |st.snaps|
    ensures var r := FoldSteps(st, lines, parseF32);
      (st.brightnessFound ==> r.brightnessFound && r.reading.brightness == st.reading.brightness) &&
      (st.refreshRateFound ==> r.refreshRateFound && r.reading.refreshRate == st.reading.refreshRate)
  {
    if lines != [] {
      DisplayFirstOnly(st, lines[..|lines| - 1], parseF32);
      StepFrame(FoldSteps(st, lines[..|lines| - 1], parseF32), lines[|lines| - 1], parseF32);
    }
  }

  /** The brightness text of a display row, if it is an `mBrightness=` row. */
  function BrightnessText(rawLine: string): Option<string> {
    StripPrefix(Trim(rawLine), "mBrightness=")
  }

  /** The refresh-rate text of a display row that is not a brightness row. */
  function RefreshText(rawLine: string): Option<string> {
    if BrightnessText(rawLine).Some? then None else StripPrefix(Trim(rawLine), "mActiveRenderFrameRate=")
  }

  /** The brightness text of each row. */
  function BrightnessTexts(rows: seq<string>): (ts: seq<Option<string>>)
    ensures |ts| == |rows| && forall i :: 0 <= i < |rows| ==> ts[i] == BrightnessText(rows[i])
  {
    seq(|rows|, i requires 0 <= i < |rows| => BrightnessText(rows[i]))
  }

  /** The refresh-rate text of each row. */
  function RefreshTexts(rows: seq<string>): (ts: seq<Option<string>>)
    ensures |ts| == |rows| && forall i :: 0 <= i < |rows| ==> ts[i] == RefreshText(rows[i])
  {
    seq(|rows|, i requires 0 <= i < |rows| => RefreshText(rows[i]))
  }

  /** The position of the first present text, or the number of texts. */
  function FirstSome(ts: seq<Option<string>>): (k: nat)
    ensures k <= |ts| && (k < |ts| ==> ts[k].Some?)
    ensures forall i :: 0 <= i < k ==> ts[i].None?
  {
    FirstSomeFrom(ts, 0)
  }

  function FirstSomeFrom(ts: seq<Option<string>>, j: nat): (k: nat)
    requires j <= |ts|
    ensures j <= k <= |ts| && (k < |ts| ==> ts[k].Some?)
    ensures forall i :: j <= i < k ==> ts[i].None?
    decreases |ts| - j
  {
    if j == |ts| || ts[j].Some? then j else FirstSomeFrom(ts, j + 1)
  }

  /** One more text: the first present one is unchanged, or is the new one, or there is none. */
  lemma FirstSomeSnoc(ts: seq<Option<string>>, us: seq<Option<string>>)
    requires |us| == |ts| + 1 && us[..|ts|] == ts
    ensures FirstSome(us) == if FirstSome(ts) < |ts| then FirstSome(ts) else if us[|ts|].Some? then |ts| else |ts| + 1
  {
    assert forall i :: 0 <= i < |ts| ==> us[i] == ts[i];
  }

  /** Inside the display section, a row goes to the display step. */
  lemma DisplayRowStep(st: BatchState, rawLine: string, parseF32: F32Parser)
    requires |st.usages| == |st.snaps| && st.inDisplay && !st.inNet && !IsMarker(Trim(rawLine))
    ensures Step(st, rawLine, parseF32) == DisplayStep(st, Trim(rawLine), parseF32)
  {
  }

  /** What a run of display rows leaves of the brightness: the first brightness row sets it. */
  ghost predicate BrightnessOutcome(st: BatchState, rows: seq<string>, r: BatchState, parseF32: F32Parser) {
    var b := FirstSome(BrightnessTexts(rows));
    r.brightnessFound == (st.brightnessFound || b < |rows|) &&
    r.reading.brightness ==
      (if st.brightnessFound || b == |rows| then st.reading.brightness
       else parseF32(BrightnessText(rows[b]).value).GetOr(0.0))
  }

  /** What a run of display rows leaves of the refresh rate: the first refresh-rate row sets it. */
  ghost predicate RefreshOutcome(st: BatchState, rows: seq<string>, r: BatchState, parseF32: F32Parser) {
    var f := FirstSome(RefreshTexts(rows));
    r.refreshRateFound == (st.refreshRateFound || f < |rows|) &&
    r.reading.refreshRate ==
      (if st.refreshRateFound || f == |rows| then st.reading.refreshRate
       else parseF32(RefreshText(rows[f]).value).GetOr(0.0))
  }

  /** What a run of display rows leaves: the two values as above, and nothing else changed. */
  ghost predicate DisplayOutcome(st: BatchState, rows: seq<string>, r: BatchState, parseF32: F32Parser) {
    r.snaps == st.snaps && r.usages == st.usages && r.inNet == st.inNet && r.inDisplay == st.inDisplay &&
    r.reading.(brightness := st.reading.brightness, refreshRate := st.reading.refreshRate) == st.reading &&
    BrightnessOutcome(st, rows, r, parseF32) && RefreshOutcome(st, rows, r, parseF32)
  }

  /**
   * Inside the display section, the brightness is read from the first
   * `mBrightness=` row and the refresh rate from the first
   * `mActiveRenderFrameRate=` row, unless already found; without such a row
   * the value and its flag stay as they were. Nothing else changes.
   */
  lemma {:induction false} DisplaySection(st: BatchState, rows: seq<string>, parseF32: F32Parser)
    requires |st.usages| == |st.snaps| && st.inDisplay && !st.inNet
    requires forall i :: 0 <= i < |rows| ==> !IsMarker(Trim(rows[i]))
    ensures DisplayOutcome(st, rows, FoldSteps(st, rows, parseF32), parseF32)
  {
    if rows != [] {
      var init := rows[..|rows| - 1];
      assert forall i :: 0 <= i < |init| ==> init[i] == rows[i];
      DisplaySection(st, init, parseF32);
      var s := FoldSteps(st, init, parseF32);
      DisplayRowStep(s, rows[|rows| - 1], parseF32);
      DisplayLast(st, rows, s, parseF32);
    }
  }

  /** The last row of a display run, on top of the outcome of the rows before it. */
  lemma DisplayLast(st: BatchState, rows: seq<string>, s: BatchState, parseF32: F32Parser)
    requires rows != [] && |s.usages| == |s.snaps|
    requires DisplayOutcome(st, rows[..|rows| - 1], s, parseF32)
    ensures DisplayOutcome(st, rows, DisplayStep(s, Trim(rows[|rows| - 1]), parseF32), parseF32)
  {
    var n := |rows| - 1;
    var r := DisplayStep(s, Trim(rows[n]), parseF32);
    DisplayStepSets(s, Trim(rows[n]), parseF32);
    LastBrightness(st, rows, s, r, parseF32);
    LastRefresh(st, rows, s, r, parseF32);
  }

  lemma LastBrightness(st: BatchState, rows: seq<string>, s: BatchState, r: BatchState, parseF32: F32Parser)
    requires rows != [] && BrightnessOutcome(st, rows[..|rows| - 1], s, parseF32)
    requires var t := BrightnessText(rows[|rows| - 1]);
      (t.Some? ==> r.brightnessFound && (!s.brightnessFound ==> r.reading.brightness == parseF32(t.value).GetOr(0.0))) &&
      (s.brightnessFound ==> r.brightnessFound && r.reading.brightness == s.reading.brightness) &&
      (t.None? ==> r.brightnessFound == s.brightnessFound && r.reading.brightness == s.reading.brightness)
    ensures BrightnessOutcome(st, rows, r, parseF32)
  {
    var n := |rows| - 1;
    var init := rows[..n];
    assert BrightnessTexts(rows)[..n] == BrightnessTexts(init) by {
      forall i | 0 <= i < n
        ensures BrightnessTexts(rows)[..n][i] == BrightnessTexts(init)[i]
      {
        assert init[i] == rows[i];
      }
    }
    FirstSomeSnoc(BrightnessTexts(init), BrightnessTexts(rows));
    assert BrightnessTexts(rows)[n] == BrightnessText(rows[n]);
  }

  lemma LastRefresh(st: BatchState, rows: seq<string>, s: BatchState, r: BatchState, parseF32: F32Parser)
    requires rows != [] && RefreshOutcome(st, rows[..|rows| - 1], s, parseF32)
    requires var t := RefreshText(rows[|rows| - 1]);
      (t.Some? ==> r.refreshRateFound && (!s.refreshRateFound ==> r.reading.refreshRate == parseF32(t.value).GetOr(0.0))) &&
      (s.refreshRateFound ==> r.refreshRateFound && r.reading.refreshRate == s.reading.refreshRate) &&
      (t.None? ==> r.refreshRateFound == s.refreshRateFound && r.reading.refreshRate == s.reading.refreshRate)
    ensures RefreshOutcome(st, rows, r, parseF32)
  {
    var n := |rows| - 1;
    var init := rows[..n];
    assert RefreshTexts(rows)[..n] == RefreshTexts(init) by {
      forall i | 0 <= i < n
        ensures RefreshTexts(rows)[..n][i] == RefreshTexts(init)[i]
      {
        assert init[i] == rows[i];
      }
    }
    FirstSomeSnoc(RefreshTexts(init), RefreshTexts(rows));
    assert RefreshTexts(rows)[n] == RefreshText(rows[n]);
  }

  /** The bytes one network row reports: received, then sent; none for a row `NetDelta` skips. */
  function RowRx(rawLine: string): U64 {
    if NetDelta(Trim(rawLine)).Some? then NetDelta(Trim(rawLine)).value.0 else 0
  }

  function RowTx(rawLine: string): U64 {
    if NetDelta(Trim(rawLine)).Some? then NetDelta(Trim(rawLine)).value.1 else 0
  }

  /** The received bytes of each row. */
  function RxOf(rows: seq<string>): (xs: seq<U64>)
    ensures |xs| == |rows| && forall i :: 0 <= i < |rows| ==> xs[i] == RowRx(rows[i])
  {
    seq(|rows|, i requires 0 <= i < |rows| => RowRx(rows[i]))
  }

  /** The sent bytes of each row. */
  function TxOf(rows: seq<string>): (xs: seq<U64>)
    ensures |xs| == |rows| && forall i :: 0 <= i < |rows| ==> xs[i] == RowTx(rows[i])
  {
    seq(|rows|, i requires 0 <= i < |rows| => RowTx(rows[i]))
  }

  function Sum(xs: seq<nat>): nat {
    if xs == [] then 0 else Sum(xs[..|xs| - 1]) + xs[|xs| - 1]
  }

  /** A `u64` counter after the values were added one by one with `+=`. */
  function WrapSum(a: U64, xs: seq<U64>): U64 {
    if xs == [] then a else WrapAdd(WrapSum(a, xs[..|xs| - 1]), xs[|xs| - 1])
  }

  /** Adding with wrap-around one by one is adding the exact sum once, modulo 2^64. */
  lemma {:induction false} WrapSumIsSum(a: U64, xs: seq<U64>)
    ensures WrapSum(a, xs) == (a + Sum(xs)) % U64_LIMIT
  {
    if xs == [] {
      ModSmall(a);
    } else {
      var init := xs[..|xs| - 1];
      WrapSumIsSum(a, init);
      WrapAddMod(a + Sum(init), xs[|xs| - 1]);
    }
  }

  /** The running counters over one more row. */
  lemma RowsStep(rx0: U64, tx0: U64, rows: seq<string>)
    requires rows != []
    ensures WrapSum(rx0, RxOf(rows)) == WrapAdd(WrapSum(rx0, RxOf(rows[..|rows| - 1])), RowRx(rows[|rows| - 1]))
    ensures WrapSum(tx0, TxOf(rows)) == WrapAdd(WrapSum(tx0, TxOf(rows[..|rows| - 1])), RowTx(rows[|rows| - 1]))
  {
    var rx, tx := RxOf(rows), TxOf(rows);
    assert rx[..|rows| - 1] == RxOf(rows[..|rows| - 1]);
    assert tx[..|rows| - 1] == TxOf(rows[..|rows| - 1]);
  }

  lemma NetRowStep(st: BatchState, rawLine: string, parseF32: F32Parser)
    requires |st.usages| == |st.snaps| && st.inNet && !IsMarker(Trim(rawLine))
    ensures Step(st, rawLine, parseF32) ==
      st.(reading := st.reading.(rxBytes := WrapAdd(st.reading.rxBytes, RowRx(rawLine)),
                                 txBytes := WrapAdd(st.reading.txBytes, RowTx(rawLine))))
  {
    var line := Trim(rawLine);
    assert KindOf(line) == Content;
    assert Step(st, rawLine, parseF32) == NetStep(st, line);
    var d := NetDelta(line);
    if d.None? {
      assert RowRx(rawLine) == 0 && RowTx(rawLine) == 0;
      assert NetStep(st, line) == st;
    } else {
      assert RowRx(rawLine) == d.value.0 && RowTx(rawLine) == d.value.1;
      assert NetStep(st, line) ==
        st.(reading := st.reading.(rxBytes := WrapAdd(st.reading.rxBytes, d.value.0),
                                   txBytes := WrapAdd(st.reading.txBytes, d.value.1)));
    }
  }

  /**
   * Inside the network section, the rows add their received and sent bytes
   * to the totals with `+=` and change nothing else.
   */
  lemma {:induction false} NetSection(st: BatchState, rows: seq<string>, parseF32: F32Parser)
    requires |st.usages| == |st.snaps| && st.inNet
    requires forall i :: 0 <= i < |rows| ==> !IsMarker(Trim(rows[i]))
    ensures FoldSteps(st, rows, parseF32) ==
      st.(reading := st.reading.(rxBytes := WrapSum(st.reading.rxBytes, RxOf(rows)),
                                 txBytes := WrapSum(st.reading.txBytes, TxOf(rows))))
  {
    if rows != [] {
      var init := rows[..|rows| - 1];
      assert forall i :: 0 <= i < |init| ==> init[i] == rows[i];
      NetSection(st, init, parseF32);
      NetRowStep(FoldSteps(st, init, parseF32), rows[|rows| - 1], parseF32);
      RowsStep(st.reading.rxBytes, st.reading.txBytes, rows);
    }
  }

  /** The first end marker is where the batch stops; without one, it takes every line. */
  lemma StopIndexIs(lines: seq<string>, k: nat)
    requires k <= |lines| && (k < |lines| ==> IsBatchEnd(lines[k]))
    requires forall i :: 0 <= i < k ==> !IsBatchEnd(lines[i])
    ensures StopIndex(lines) == k
  {
  }

  /** The batch ends at the first end marker: what follows it is left for the next batch. */
  lemma StopAtEnd(snaps: seq<CpuSnap>, a: seq<string>, end: string, b: seq<string>, parseF32: F32Parser)
    requires forall i :: 0 <= i < |a| ==> !IsBatchEnd(a[i])
    requires IsBatchEnd(end)
    ensures RunBatch(snaps, a + [end] + b, parseF32) == RunBatch(snaps, a, parseF32)
    ensures Consumed(a + [end] + b) == |a| + 1
  {
    var lines := a + [end] + b;
    assert lines[|a|] == end;
    assert forall i :: 0 <= i < |a| ==> lines[i] == a[i];
    StopIndexIs(lines, |a|);
    StopIndexIs(a, |a|);
    assert lines[..|a|] == a;
    assert a[..|a|] == a;
  }

  // ---------------------------------------------------------------------------
  // direct readers: memory and GPU load
  // ---------------------------------------------------------------------------

  /** A `/proc/meminfo` value in mebibytes: its first number, read in kibibytes. */
  function MemValue(rest: string, parseF32: F32Parser): real {
    ParseOrZero(Trim(rest), parseF32) / 1024.0
  }

  /** The value of the last of the first `n` lines that starts with `key`, or 0 when none does. */
  function MemField(lines: seq<string>, n: nat, key: string, parseF32: F32Parser): real
    requires n <= |lines|
  {
    if n == 0 then 0.0
    else if StartsWith(lines[n - 1], key) then MemValue(lines[n - 1][|key|..], parseF32)
    else MemField(lines, n - 1, key, parseF32)
  }

  /** The last line of a key decides its value. */
  lemma MemFieldLast(lines: seq<string>, key: string, j: nat, parseF32: F32Parser)
    requires j < |lines| && StartsWith(lines[j], key)
    requires forall i :: j < i < |lines| ==> !StartsWith(lines[i], key)
    ensures MemField(lines, |lines|, key, parseF32) == MemValue(lines[j][|key|..], parseF32)
  {
    MemFieldSkip(lines, |lines|, key, j, parseF32);
    MemFieldStep(lines, j, key, parseF32);
  }

  /** Lines after `j` that do not start with `key` leave the value as line `j` left it. */
  lemma {:induction false} MemFieldSkip(lines: seq<string>, n: nat, key: string, j: nat, parseF32: F32Parser)
    requires j < n <= |lines|
    requires forall i :: j < i < n ==> !StartsWith(lines[i], key)
    ensures MemField(lines, n, key, parseF32) == MemField(lines, j + 1, key, parseF32)
  {
    if j + 1 < n {
      MemFieldStep(lines, n - 1, key, parseF32);
      MemFieldSkip(lines, n - 1, key, j, parseF32);
    }
  }

  /** A key no line starts with reads as 0. */
  lemma {:induction false} MemFieldAbsent(lines: seq<string>, n: nat, key: string, parseF32: F32Parser)
    requires n <= |lines|
    requires forall i :: 0 <= i < n ==> !StartsWith(lines[i], key)
    ensures MemField(lines, n, key, parseF32) == 0.0
  {
    if n > 0 {
      MemFieldAbsent(lines, n - 1, key, parseF32);
    }
  }

  lemma MemFieldStep(lines: seq<string>, i: nat, key: string, parseF32: F32Parser)
    requires i < |lines|
    ensures MemField(lines, i + 1, key, parseF32) ==
      if StartsWith(lines[i], key) then MemValue(lines[i][|key|..], parseF32) else MemField(lines, i, key, parseF32)
  {
  }

  /** No line starts with two of the four `/proc/meminfo` keys. */
  lemma MemKeysExclusive(line: string)
    ensures StartsWith(line, "MemTotal:") ==> !StartsWith(line, "MemAvailable:") && !StartsWith(line, "SwapTotal:") && !StartsWith(line, "SwapFree:")
    ensures StartsWith(line, "MemAvailable:") ==> !StartsWith(line, "SwapTotal:") && !StartsWith(line, "SwapFree:")
    ensures StartsWith(line, "SwapTotal:") ==> !StartsWith(line, "SwapFree:")
  {
    if |line| >= 9 {
      assert line[..9][0] == line[0] && line[..9][3] == line[3] && line[..9][4] == line[4];
    }
    if |line| >= 10 {
      assert line[..10][0] == line[0] && line[..10][4] == line[4];
    }
    if |line| >= 13 {
      assert line[..13][0] == line[0] && line[..13][3] == line[3];
    }
  }

  /**
   * `read_memory` on the text of `/proc/meminfo`: total, available, swap
   * total and swap free, in mebibytes.
   */
  method ReadMemory(content: string, parseF32: F32Parser) returns (total: real, avail: real, swapTotal: real, swapFree: real)
    ensures var ls := Lines(content);
      total == MemField(ls, |ls|, "MemTotal:", parseF32) && avail == MemField(ls, |ls|, "MemAvailable:", parseF32) &&
      swapTotal == MemField(ls, |ls|, "SwapTotal:", parseF32) && swapFree == MemField(ls, |ls|, "SwapFree:", parseF32)
  {
    var ls := Lines(content);
    total, avail, swapTotal, swapFree := 0.0, 0.0, 0.0, 0.0;
    for i := 0 to |ls|
      invariant total == MemField(ls, i, "MemTotal:", parseF32)
      invariant avail == MemField(ls, i, "MemAvailable:", parseF32)
      invariant swapTotal == MemField(ls, i, "SwapTotal:", parseF32)
      invariant swapFree == MemField(ls, i, "SwapFree:", parseF32)
    {
      var line := ls[i];
      MemFieldStep(ls, i, "MemTotal:", parseF32);
      MemFieldStep(ls, i, "MemAvailable:", parseF32);
      MemFieldStep(ls, i, "SwapTotal:", parseF32);
      MemFieldStep(ls, i, "SwapFree:", parseF32);
      MemKeysExclusive(line);
      var t := StripPrefix(line, "MemTotal:");
      var a := StripPrefix(line, "MemAvailable:");
      var st := StripPrefix(line, "SwapTotal:");
      var sf := StripPrefix(line, "SwapFree:");
      if t.Some? {
        total := MemValue(t.value, parseF32);
      } else if a.Some? {
        avail := MemValue(a.value, parseF32);
      } else if st.Some? {
        swapTotal := MemValue(st.value, parseF32);
      } else if sf.Some? {
        swapFree := MemValue(sf.value, parseF32);
      }
    }
  }

  /** `read_gpu_load` on the text of `gpubusy`: busy over total, in percent, or 0. */
  function GpuLoad(content: string): (load: real)
    ensures load >= 0.0
  {
    var ws := SplitWhitespace(content);
    var busy := if |ws| >= 1 then ParseU64(ws[0]).GetOr(0) else 0;
    var total := if |ws| >= 2 then ParseU64(ws[1]).GetOr(0) else 0;
    BusyPercent(busy, total)
  }

  /** The ratio of busy to total, in percent, and 0 for a zero total. */
  function BusyPercent(busy: nat, total: nat): (p: real)
    ensures p >= 0.0
    ensures total == 0 ==> p == 0.0
    ensures busy <= total ==> p <= 100.0
  {
    if total > 0 then
      assert busy <= total ==> (busy as real) / (total as real) <= 1.0;
      (busy as real) / (total as real) * 100.0
    else 0.0
  }

  /** The text `busy total`, as the kernel writes it, reads as their ratio. */
  lemma GpuLoadOfCounters(busy: nat, total: nat)
    requires busy < U64_LIMIT && total < U64_LIMIT
    ensures GpuLoad(Decimal(busy) + " " + Decimal(total)) == BusyPercent(busy, total)
  {
    var ws := [Decimal(busy), Decimal(total)];
    DecimalIsWord(busy);
    DecimalIsWord(total);
    assert JoinWith(ws, " ") == Decimal(busy) + " " + Decimal(total);
    SplitJoinedWords(ws);
    ParseDecimal(busy);
    ParseDecimal(total);
  }

  // ---------------------------------------------------------------------------
  // the sampler
  // ---------------------------------------------------------------------------

  /** The sampler's state that outlives a tick. */
  class Sampler {
    var coreSnaps: array<CpuSnap>
    var coreUsages: array<real>
    var tick: nat
    var storageFreeGb: real
    var storageTotalGb: real

    ghost predicate Valid()
      reads this
    {
      coreSnaps.Length == coreUsages.Length
    }

    /** The tables sized once from the static core list, all zero. */
    constructor (coreLen: nat)
      ensures Valid() && coreSnaps.Length == coreLen
      ensures fresh(coreSnaps) && fresh(coreUsages)
      ensures forall i :: 0 <= i < coreLen ==> coreSnaps[i] == CpuSnap(0, 0) && coreUsages[i] == 0.0
      ensures tick == 0 && storageFreeGb == 0.0 && storageTotalGb == 0.0
    {
      coreSnaps := new CpuSnap[coreLen](_ => CpuSnap(0, 0));
      coreUsages := new real[coreLen](_ => 0.0);
      tick := 0;
      storageFreeGb, storageTotalGb := 0.0, 0.0;
    }

    /** One core line: the in-place form of `CoreUpdate`. */
    method UpdateCore(idx: nat, cur: CpuSnap)
      requires Valid() && idx < coreSnaps.Length
      modifies coreSnaps, coreUsages
      ensures (coreSnaps[..], coreUsages[..]) == CoreUpdate(old(coreSnaps[..]), old(coreUsages[..]), idx, cur)
    {
      var dt := SatSub(cur.total, coreSnaps[idx].total);
      var di := SatSub(cur.idle, coreSnaps[idx].idle);
      if dt > 0 {
        coreUsages[idx] := Usage(dt, di);
      }
      coreSnaps[idx] := cur;
    }

    /** A line of the normal section. */
    method NormalLine(line: string, reading: BatchReading, ghost inNet: bool, ghost inDisplay: bool,
                      ghost bFound: bool, ghost rFound: bool, parseF32: F32Parser)
      returns (reading': BatchReading)
      requires Valid()
      modifies coreSnaps, coreUsages
      ensures BatchState(reading', inNet, inDisplay, bFound, rFound, coreSnaps[..], coreUsages[..]) ==
        NormalStep(BatchState(reading, inNet, inDisplay, bFound, rFound, old(coreSnaps[..]), old(coreUsages[..])),
                   line, parseF32)
    {
      ghost var st := BatchState(reading, inNet, inDisplay, bFound, rFound, coreSnaps[..], coreUsages[..]);
      reading' := reading;
      var parts := SplitAtWhitespace(line);
      var tag, rest := parts.0, parts.1;
      if TagOf(tag) != OtherTag {
        reading' := TagReading(reading, tag, rest, parseF32);
      } else {
        CoreLine(tag, rest);
        if CoreIndex(tag, |st.snaps|).Some? {
          ghost var u := CoreUpdate(st.snaps, st.usages, CoreIndex(tag, |st.snaps|).value, CpuStat(rest));
          assert TagStep(st, tag, rest, parseF32) == st.(snaps := u.0, usages := u.1);
        } else {
          assert TagStep(st, tag, rest, parseF32) == st;
        }
      }
    }

    /** A line whose tag is no other tag: the counter update of the core it addresses, if any. */
    method CoreLine(tag: string, rest: string)
      requires Valid()
      modifies coreSnaps, coreUsages
      ensures CoreIndex(tag, coreSnaps.Length).None? ==>
        coreSnaps[..] == old(coreSnaps[..]) && coreUsages[..] == old(coreUsages[..])
      ensures CoreIndex(tag, coreSnaps.Length).Some? ==>
        (coreSnaps[..], coreUsages[..]) ==
        CoreUpdate(old(coreSnaps[..]), old(coreUsages[..]), CoreIndex(tag, coreSnaps.Length).value, CpuStat(rest))
    {
      var idx := CoreIndex(tag, coreSnaps.Length);
      if idx.Some? {
        var t, i := ParseCpuStat(rest);
        UpdateCore(idx.value, CpuSnap(t, i));
      }
    }

    /** One line of a batch that is not its end: the in-place form of `Step`. */
    method ProcessLine(rawLine: string, reading: BatchReading, inNet: bool, inDisplay: bool,
                       brightnessFound: bool, refreshRateFound: bool, parseF32: F32Parser)
      returns (reading': BatchReading, inNet': bool, inDisplay': bool,
               brightnessFound': bool, refreshRateFound': bool)
      requires Valid()
      modifies coreSnaps, coreUsages
      ensures BatchState(reading', inNet', inDisplay', brightnessFound', refreshRateFound', coreSnaps[..], coreUsages[..]) ==
        Step(BatchState(reading, inNet, inDisplay, brightnessFound, refreshRateFound, old(coreSnaps[..]), old(coreUsages[..])),
             rawLine, parseF32)
    {
      reading', inNet', inDisplay', brightnessFound', refreshRateFound' :=
        reading, inNet, inDisplay, brightnessFound, refreshRateFound;
      var line := Trim(rawLine);
      var kind := KindOf(line);
      if kind == NetStart {
        inNet' := true;
      } else if kind == NetEnd {
        inNet' := false;
      } else if kind == DisplayStart {
        inDisplay' := true;
      } else if kind == DisplayEnd {
        inDisplay' := false;
      } else if inNet {
        var delta := NetDelta(line);
        if delta.Some? {
          reading' := reading.(rxBytes := WrapAdd(reading.rxBytes, delta.value.0),
                               txBytes := WrapAdd(reading.txBytes, delta.value.1));
        }
      } else if inDisplay {
        var b := StripPrefix(line, "mBrightness=");
        if b.Some? {
          if !brightnessFound {
            reading' := reading.(brightness := parseF32(b.value).GetOr(0.0));
            brightnessFound' := true;
          }
        } else {
          var r := StripPrefix(line, "mActiveRenderFrameRate=");
          if r.Some? && !refreshRateFound {
            reading' := reading.(refreshRate := parseF32(r.value).GetOr(0.0));
            refreshRateFound' := true;
          }
        }
      } else {
        reading' := NormalLine(line, reading, inNet, inDisplay, brightnessFound, refreshRateFound, parseF32);
      }
    }

    /**
     * The body of the `while let` loop over one batch: zero the usages, then
     * step through the lines up to the end marker.  Returns the reading and
     * how many lines were taken from the stream.
     */
    method ReadBatch(lines: seq<string>, parseF32: F32Parser) returns (reading: BatchReading, consumed: nat)
      requires Valid()
      modifies coreSnaps, coreUsages
      ensures var st := RunBatch(old(coreSnaps[..]), lines, parseF32);
        reading == st.reading && coreSnaps[..] == st.snaps && coreUsages[..] == st.usages
      ensures consumed == Consumed(lines)
    {
      ghost var snaps0 := coreSnaps[..];
      for z := 0 to coreUsages.Length
        invariant coreSnaps[..] == snaps0
        invariant forall j :: 0 <= j < z ==> coreUsages[j] == 0.0
      {
        coreUsages[z] := 0.0;
      }
      assert coreUsages[..] == InitialState(snaps0).usages;
      reading := InitialReading;
      var inNet, inDisplay, brightnessFound, refreshRateFound := false, false, false, false;
      var k := 0;
      while k < |lines| && !IsBatchEnd(lines[k])
        invariant k <= StopIndex(lines)
        invariant BatchState(reading, inNet, inDisplay, brightnessFound, refreshRateFound, coreSnaps[..], coreUsages[..])
          == FoldSteps(InitialState(snaps0), lines[..k], parseF32)
      {
        FoldStepsStep(InitialState(snaps0), lines, k, parseF32);
        reading, inNet, inDisplay, brightnessFound, refreshRateFound :=
          ProcessLine(lines[k], reading, inNet, inDisplay, brightnessFound, refreshRateFound, parseF32);
        k := k + 1;
      }
      StopIndexIs(lines, k);
      consumed := if k < |lines| then k + 1 else k;
    }

    /** A storage read is due on the first tick and every sixtieth after it. */
    static predicate IsStorageTick(t: nat) {
      t % STORAGE_TICK_INTERVAL == 0
    }

    /**
     * One iteration of the sampling loop without its I/O: on a storage tick
     * the cache takes `storageRead`; the batch is read; the payload is built
     * from the static cores, the batch's usages and the current frequencies;
     * the tick advances.
     */
    method SampleTick(storageRead: (real, real), lines: seq<string>, parseF32: F32Parser,
                      statics: seq<StaticCoreInfo>, curFreqs: seq<real>)
      returns (cores: seq<CoreData>, reading: BatchReading, consumed: nat)
      requires Valid()
      modifies this, coreSnaps, coreUsages
      ensures Valid() && coreSnaps == old(coreSnaps) && coreUsages == old(coreUsages)
      ensures tick == old(tick) + 1
      ensures (storageFreeGb, storageTotalGb) ==
        if IsStorageTick(old(tick)) then storageRead else (old(storageFreeGb), old(storageTotalGb))
      ensures var st := RunBatch(old(coreSnaps[..]), lines, parseF32);
        reading == st.reading && coreSnaps[..] == st.snaps && coreUsages[..] == st.usages &&
        cores == BuildCores(statics, st.usages, curFreqs)
      ensures consumed == Consumed(lines)
    {
      if IsStorageTick(tick) {
        storageFreeGb, storageTotalGb := storageRead.0, storageRead.1;
      }
      reading, consumed := ReadBatch(lines, parseF32);
      cores := BuildCores(statics, coreUsages[..], curFreqs);
      tick := tick + 1;
    }
  }

  /** Whether the tick `d` after `t` reads storage. */
  predicate StorageDueAfter(t: nat, d: nat) {
    Sampler.IsStorageTick(t + d)
  }

  /** The one offset below sixty that lands on a multiple of sixty. */
  function NextStorageOffset(t: nat): (k: nat)
    ensures k < STORAGE_TICK_INTERVAL
  {
    (STORAGE_TICK_INTERVAL - t % STORAGE_TICK_INTERVAL) % STORAGE_TICK_INTERVAL
  }

  lemma StorageDueExactly(t: nat, d: nat)
    requires d < STORAGE_TICK_INTERVAL
    ensures StorageDueAfter(t, d) <==> d == NextStorageOffset(t)
  {
    var q, r := t / STORAGE_TICK_INTERVAL, t % STORAGE_TICK_INTERVAL;
    assert t == q * STORAGE_TICK_INTERVAL + r;
    if r == 0 {
      assert t + d == q * STORAGE_TICK_INTERVAL + d;
    } else {
      assert t + d == (q + 1) * STORAGE_TICK_INTERVAL + (r + d - STORAGE_TICK_INTERVAL);
    }
  }

  /** Exactly one tick in every sixty consecutive ones reads storage. */
  lemma StorageCadence(t: nat)
    ensures |set d: nat | d < STORAGE_TICK_INTERVAL && StorageDueAfter(t, d)| == 1
  {
    var k := NextStorageOffset(t);
    var s := set d: nat | d < STORAGE_TICK_INTERVAL && StorageDueAfter(t, d);
    StorageDueExactly(t, k);
    forall d | d in s
      ensures d == k
    {
      StorageDueExactly(t, d);
    }
    assert s == {k};
  }

  // ---------------------------------------------------------------------------
  // the payload
  // ---------------------------------------------------------------------------

  /** The value at `i`, or 0 past the end (`get(i).copied().unwrap_or(0.0)`). */
  function At(xs: seq<real>, i: nat): real {
    if i < |xs| then xs[i] else 0.0
  }

  /** One `CoreData` per static core, in static order. */
  function BuildCores(statics: seq<StaticCoreInfo>, usages: seq<real>, curFreqs: seq<real>): (cores: seq<CoreData>)
    ensures |cores| == |statics|
    ensures forall i :: 0 <= i < |cores| ==>
      cores[i] == CoreData(statics[i].name, At(usages, i), statics[i].modelName, At(curFreqs, i),
                           statics[i].minFreq, statics[i].maxFreq)
  {
    seq(|statics|, i requires 0 <= i < |statics| =>
      CoreData(statics[i].name, At(usages, i), statics[i].modelName, At(curFreqs, i),
               statics[i].minFreq, statics[i].maxFreq))
  }
}

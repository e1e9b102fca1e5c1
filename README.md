# pasmonux core, modelled in Dafny

pasmonux is an Android device monitor. A sampler runs one batch of shell
commands every tick and parses their output line by line into a snapshot. An
HTTP router answers path requests by walking that snapshot as a JSON tree. At
start-up a one-shot discovery step finds the thermal zones, counts the cores and
reads the per-core table from `lscpu`. This project models the string and state
logic of those three parts. It does not model the I/O around them.

- `router.dfy` (module `Router`) models `router.rs`:
  - the segment split of a request path;
  - `navigate`, `resolve_request` and its wildcard (`*` / `all`) expansion;
  - `resolve_comma_fields` and `attach_name`;
  - the endpoint enumeration behind the API index.

  The JSON tree is a datatype (`json.dfy`, module `JsonValue`). An object is an
  ordered list of key/value pairs, with `serde_json::Map`'s `get`, `insert` and
  `extend`. The enumeration, which appends to a vector, is a method over a
  `seq`. Everything else is pure functions with lemmas about them.
- `monitor.dfy` (module `Monitor`) models `monitor.rs`.
  - The per-batch parser is the `Sampler` class. Its fields are the core
    counter and usage arrays that outlive a tick, the tick number and the
    cached storage figures. `ReadBatch` runs the parsing loop. Its result is
    tied to `RunBatch`, a fold of the pure one-line transition `Step` over the
    lines before `END_OF_BATCH`, and the lemmas are about that fold.
  - `ParseCpuStat` and `ReadMemory` are the source's loops, proved against the
    functions `CpuStat` and `MemField`.
  - Also modelled: `parse_or_zero`, `read_gpu_load`, the storage cadence and
    the per-core payload.
- `discover.dfy` (module `Discover`) models `discover.rs`:
  - the thermal-zone filter, sort and fold;
  - the core-directory filter and count;
  - the kernel version token;
  - the `lscpu` row parse and the sort by core number.

  Sorting in place is an insertion sort on an `array` (`sorting.dfy`, module
  `Sorting`). It is proved sorted and a permutation.
- `text.dfy` (module `Text`) holds the Rust string routines the core relies on:
  - `trim`, `split_whitespace`, `split`, `lines`, `strip_prefix`, `contains`,
    `split_once` and `to_ascii_lowercase`;
  - `parse::<u64>` and `parse::<i32>`.

  Each is given with the properties the core needs. `types.dfy` and
  `wrappers.dfy` hold the shared records and `Option`.

Integers:
- A `u64` is a natural below 2^64.
- A `+=` on `u64` wraps, as in a release build (`WrapAdd`).
- `saturating_sub` is `SatSub`.
- The `f32`-to-`u64` cast saturates (`FloatToU64`).
- `f32` values are reals.

The parameters:
- `str::parse::<f32>` is the parameter `parseF32`, because it is a foreign
  routine.
- The contents of files, directory listings and command output are arguments.
- The storage reading is a pair passed to `SampleTick`.

Where the design notes and the code disagree, the model follows the code,
except for the usage formula of `monitor.rs:190` (see Findings):
- A core whose total counter did not advance within a batch reports usage 0,
  not its previous usage. The usage table is zeroed at the start of every batch
  (`monitor.rs:89`).
- The enumeration lists every field key of a named array element except
  `name`, whatever its value, and not only scalar fields (`router.rs:256-259`).
- The enumeration is sound only for well-formed trees
  (`ListedEndpointsResolve`, under `Hygienic(v, true)`): every key and element
  name is non-empty and free of `/` and `,` and is not `*` or `all`, the keys
  of each object are unique, and the names within each array are distinct.
  Without distinct names it lists paths below a later element of a repeated
  name that the resolver, stopping at the first, cannot find (see Findings).
  The enumeration is not complete:
  - wildcard paths, comma lists and paths below an element's field are never
    listed;
  - an object nested in an array element is listed only by the element's key.
- Counter regression can make the written usage formula exceed 100 percent.
  See Findings.

## Model

| member | source | states |
|---|---|---|
| `Router.IsWildcard` | src/router.rs:130-132 | defined by its body: `*` and `all` are the wildcard tokens; see `Router.ResolveWildcardFinal` and `Router.ResolveWildcardInner` |
| `Router.ResolveRequest` | src/router.rs:161-213 | defined by its body, branch by branch as `resolve_request`; see `Router.ResolveEmpty`, `Router.ResolveScalar`, `Router.ResolveWildcardFinal`, `Router.ResolveWildcardInner`, `Router.ResolveObjectKey`, `Router.ResolveArrayName`, `Router.ResolvePlain` and `Router.CommaFieldsSome` |
| `Router.Expand` | src/router.rs:178-188 | at most one result per element; see `Router.ExpandTagged` for the exact correspondence |
| `Router.RequestSegments` | src/router.rs:74 | every segment a request path splits into is non-empty and free of `/` |
| `Router.SegmentsOfPath` | src/router.rs:74 | rendering non-empty, slash-free keys as `/k1/k2/..` and splitting the result gives the keys back |
| `Router.NameIndex` | src/router.rs:146-148 | the first array element whose `name` is the key, or the length when there is none: no earlier element carries that name |
| `Router.FindByNameSpec` | src/router.rs:202-204 | the name lookup finds an element exactly when some element is named so, and what it finds is a member of the array with that name |
| `Router.Navigate` | src/router.rs:135-153 | the empty path gives the value itself; a non-empty path into a scalar gives nothing |
| `Router.NavigateAppend` | src/router.rs:135-153 | navigating a joined path is navigating its first part and then the second part from the value reached; nothing when the first part fails |
| `Router.ResolveEmpty` | src/router.rs:162-164 | resolving or navigating the empty path gives the whole value |
| `Router.ResolveScalar` | src/router.rs:177 | a non-empty path that is not a final comma list finds nothing in a scalar |
| `Router.ResolveWildcardFinal` | src/router.rs:176-188 | a final wildcard on an array returns the array unchanged, and nothing for an empty array or a non-array |
| `Router.ResolveWildcardInner` | src/router.rs:176-188 | an inner wildcard returns exactly the elements for which the rest of the path resolves, in array order, each with its name attached; nothing when none resolves or the value is not an array |
| `Router.ExpandTagged` | src/router.rs:178-187 | the collected results correspond one to one to the resolving elements, in order, each being that element's result with its name attached |
| `Router.ResolveObjectKey` | src/router.rs:193-200 | an object key gives `{key: child}` when it is the last segment, otherwise resolution continues in the child; a missing key gives nothing |
| `Router.ResolveArrayName` | src/router.rs:201-210 | an element name gives that element when it is the last segment, otherwise resolution continues in it; an unknown name gives nothing |
| `Router.ResolvePlain` | src/router.rs:161-213 | on paths without wildcards or commas, resolution succeeds exactly when navigation does; it returns the navigated value wrapped as `{last: value}` when the value reached before the last segment is an object, and the navigated value itself when it is an array |
| `Router.AttachName` | src/router.rs:227-234 | without a name or for a non-object the value is unchanged; otherwise `name` comes first and the keys are `name` plus the value's keys |
| `Router.AttachNameLookup` | src/router.rs:230-233 | after attaching, each key of the value keeps its entry (an existing `name` overrides the attached one), `name` maps to the attached name otherwise, and keys stay unique |
| `Router.FieldNamesShape` | src/router.rs:218 | the requested field names are non-empty and contain no comma |
| `Router.GatherLookup` | src/router.rs:219-221 | inserting a found field adds or replaces that key and leaves every other key as it was |
| `Router.ProjectLookup` | src/router.rs:218-222 | after the loop, a key maps to the navigated field exactly when it was requested, and to nothing otherwise |
| `Router.FillFields` | src/router.rs:217-222 | the loop builds the projection of the value onto the requested names |
| `Router.ResolveCommaFields` | src/router.rs:216-224 | the method returns the comma-list result, the object of found fields or nothing |
| `Router.CommaFields` | src/router.rs:223 | a comma-list result is a non-empty object |
| `Router.CommaFieldsNone` | src/router.rs:223 | a comma list finds nothing exactly when no requested name navigates to a value |
| `Router.CommaFieldsSome` | src/router.rs:216-224 | a found comma-list object has unique keys; each key maps to the navigated field when requested and is absent otherwise |
| `Router.EnumerateEndpoints` | src/router.rs:239-266 | the recursive walk appends exactly the rendered endpoint paths of the value to what was listed before |
| `Router.AppendItemEndpoints` | src/router.rs:249-261 | the loop over an array appends the rendered paths of every named element, in order |
| `Router.AppendItemEndpoint` | src/router.rs:250-260 | a named element contributes its own path and one path per key other than `name`; an unnamed element contributes nothing |
| `Router.IndexEndpoints` | src/router.rs:44-47 | the index lists `/stats` followed by every enumerated path |
| `Router.EndpointSegsReachable` | src/router.rs:239-266 | every enumerated segment list is reachable in the tree through keys and element names, for either listing under its well-formedness condition |
| `Router.ItemsEndpointsReachable` | src/router.rs:248-261 | every path listed for an array's elements is reachable from the array, for either listing under its well-formedness condition |
| `Router.FindOwnName` | src/router.rs:146-148 | looking up a listed element's own name finds that element: with distinct names always, and in the first-named listing because only the first element of each name is listed |
| `Router.ListedEndpointsResolve` | src/router.rs:239-266 | in a tree whose keys and names are safe segments (non-empty, no `/` or `,`, not `*` or `all`), whose objects have unique keys and whose arrays have distinct names, every path the index lists splits back into its segments, and resolving them succeeds |
| `Router.DuplicateNameUnresolved` | src/router.rs:249-261 | for `{"arr": [{"name": "x"}, {"name": "x", "f": 1}]}`, a tree that is well-formed except for the repeated name, the enumeration lists `/arr/x/f` but resolving it finds nothing; listing only the first element of each name gives `/arr` and `/arr/x` |
| `Router.FirstNamedEndpointsResolve` | src/router.rs:202-204 | listing only the first element of each name, every listed path of a tree with safe segments and unique keys resolves, whether or not names repeat |
| `JsonValue.LookupKeys` | src/router.rs:144 | a key is found in an object exactly when it is one of its keys |
| `JsonValue.InsertLookup` | src/router.rs:220 | `insert` makes the key map to the new value and leaves every other key as it was |
| `JsonValue.ExtendLookup` | src/router.rs:232 | after `extend`, a key of the added map has the added value and every other key keeps its old one |
| `Monitor.ParseOrZero` | src/monitor.rs:337-342 | defined by its body; see `Monitor.ParseOrZeroFirstWord` |
| `Monitor.CpuStat` | src/monitor.rs:346-358 | defined by its body; see `Monitor.ParseCpuStat`, `Monitor.WrappedTotalSum`, `Monitor.WrappedIdleSum`, `Monitor.CpuStatIdleAtMostTotal` and `Monitor.CpuStatFirstEight` |
| `Monitor.NetDelta` | src/monitor.rs:132-140 | defined by its body; see `Monitor.NetDeltaOfRow` and `Monitor.NetSection` |
| `Monitor.FoldSteps` | src/monitor.rs:104-197 | the fold keeps the number of cores; see `Monitor.BatchUsagesInRange`, `Monitor.BatchKeepsCore`, `Monitor.DisplaySection`, `Monitor.DisplayFirstOnly` and `Monitor.NetSection` |
| `Monitor.MemField` | src/monitor.rs:284-294 | defined by its body; see `Monitor.MemFieldLast`, `Monitor.MemFieldAbsent` and `Monitor.ReadMemory` |
| `Monitor.UsageAsWritten` | src/monitor.rs:190 | defined by its body, the formula as written with `u64` wrap-around of `dt - di`; see `Monitor.UsageAsWrittenAgrees` and `Monitor.UsageAsWrittenOverflows` |
| `Monitor.ParseOrZeroFirstWord` | src/monitor.rs:337-342 | the value is the `f32` reading of the first word, 0 when there is no word or it does not parse |
| `Monitor.StatCount` | src/monitor.rs:349 | at most eight tokens are read: eight, or all of them when there are fewer |
| `Monitor.ParseCpuStat` | src/monitor.rs:346-358 | the loop computes the wrapped sum of the parsing tokens among the first eight, and of those at positions 3 and 4 |
| `Monitor.WrappedTotalSum` | src/monitor.rs:347-351 | the running `u64` total equals the true sum of the parsed fields modulo 2^64 |
| `Monitor.WrappedIdleSum` | src/monitor.rs:352-355 | the running idle counter equals the true sum of the idle and iowait fields modulo 2^64 |
| `Monitor.CpuStatIdleAtMostTotal` | src/monitor.rs:346-358 | without wrap-around, the idle counter never exceeds the total |
| `Monitor.CpuStatFirstEight` | src/monitor.rs:349 | tokens after the eighth do not change the result |
| `Monitor.SatSub` | src/monitor.rs:186-187 | saturating subtraction: the difference when it is non-negative, 0 otherwise |
| `Monitor.WrapAdd` | src/monitor.rs:137-138 | `u64` addition: the sum when it fits, otherwise a value below both operands |
| `Monitor.FloatToU64` | src/monitor.rs:166-170 | the `as u64` cast: 0 for non-positive values, the floor inside the range, the maximum above it |
| `Monitor.Usage` | src/monitor.rs:186-191 | the busy share is in [0, 100]: (dt - di) / dt * 100 when di <= dt, and 0 when the idle delta reaches the total |
| `Monitor.UsageAsWrittenAgrees` | src/monitor.rs:190 | the formula as written and the corrected one agree whenever di <= dt |
| `Monitor.UsageAsWrittenOverflows` | src/monitor.rs:186-190 | counters going from (100, 10) to (150, 80) make the written formula exceed 100 percent; the corrected one gives 0 |
| `Monitor.InitialState` | src/monitor.rs:89-102 | a batch starts with one counter and one usage per core |
| `Monitor.KindOf` | src/monitor.rs:107-127 | each section marker is recognised exactly when the trimmed line equals it |
| `Monitor.NetDeltaOfRow` | src/monitor.rs:132-140 | a non-loopback row with ten or more fields contributes its first and ninth fields |
| `Monitor.NetStep` | src/monitor.rs:130-143 | a network-section line changes only the rx/tx totals, and nothing when it is not a counted row |
| `Monitor.NetRowStep` | src/monitor.rs:130-143 | a network-section line adds its rx and tx contribution to the totals with `u64` wrap-around |
| `Monitor.NetSection` | src/monitor.rs:130-143 | a run of network rows adds the wrapped sums of their contributions and changes nothing else |
| `Monitor.WrapSumIsSum` | src/monitor.rs:137-138 | repeated wrapping addition equals the true sum modulo 2^64 |
| `Monitor.DisplayStep` | src/monitor.rs:146-159 | a display row changes only the brightness, the refresh rate and their two flags; a value already found is never changed again; see `Monitor.DisplayStepSets` |
| `Monitor.DisplayStepSets` | src/monitor.rs:147-157 | an `mBrightness=` row marks the brightness found and, if it was not found yet, sets it to the `f32` reading of its value (0 when it does not parse), leaving the refresh rate alone; an `mActiveRenderFrameRate=` row that is not a brightness row does the same for the refresh rate; any other row changes nothing |
| `Monitor.DisplaySection` | src/monitor.rs:146-159 | after a run of display-section rows, the brightness is the reading of the first `mBrightness=` row and is found exactly when there is one (or it was found before); without one, value and flag stay as they were, 0 and not found at the start of a batch; the same for the refresh rate and the first `mActiveRenderFrameRate=` row that is not a brightness row; nothing else changes |
| `Monitor.DisplayFirstOnly` | src/monitor.rs:146-159 | over any run of lines, a brightness or refresh rate once found keeps its value |
| `Monitor.CoreIndex` | src/monitor.rs:181-184 | a per-core tag gives an index below the core count and starts with `cpu` |
| `Monitor.CoreIndexOfName` | src/monitor.rs:181-184 | `cpuN` gives N exactly when N is below the core count |
| `Monitor.CoreIndexRejects` | src/monitor.rs:172-184 | `cpu`, `cpufreq` and `intr` address no core |
| `Monitor.CoreUpdate` | src/monitor.rs:185-192 | a core line stores the new counters for that core; its usage becomes the busy share of the counter deltas when the total advanced and stays as it was otherwise; every other core is unchanged and every usage stays in [0, 100] |
| `Monitor.TagOf` | src/monitor.rs:164-180 | each tag is recognised exactly when it equals its literal |
| `Monitor.TagReading` | src/monitor.rs:164-180 | a tagged line changes only the uptime and battery readings |
| `Monitor.TagStep` | src/monitor.rs:162-196 | a normal-section line keeps the number of cores |
| `Monitor.TagStepKeeps` | src/monitor.rs:162-196 | a normal-section line never touches section flags, display values or network totals |
| `Monitor.TagStepCores` | src/monitor.rs:181-194 | a normal-section line changes no core other than the one its tag addresses, and keeps usages in range |
| `Monitor.Step` | src/monitor.rs:104-197 | one line keeps the number of cores |
| `Monitor.StepFrame` | src/monitor.rs:104-197 | one line changes no core it does not address, keeps usages in [0, 100], and keeps a found brightness or refresh rate |
| `Monitor.StepNormal` | src/monitor.rs:161-162 | outside both sections, a non-marker line is parsed as a tagged line |
| `Monitor.CoreLineStep` | src/monitor.rs:181-193 | outside both sections, a `cpuN` line for an existing core updates that core from its counters and changes nothing else |
| `Monitor.CoreTagIsContent` | src/monitor.rs:107-127 | a `cpuN` line is never a section marker |
| `Monitor.StopIndex` | src/monitor.rs:104-109 | the batch ends at the first `END_OF_BATCH` line, or at the end of input |
| `Monitor.StopAtEnd` | src/monitor.rs:104-109 | lines after `END_OF_BATCH` do not affect the batch, and the marker is the last line consumed |
| `Monitor.RunBatch` | src/monitor.rs:89-197 | a batch keeps the number of cores |
| `Monitor.BatchUsagesInRange` | src/monitor.rs:89-197 | after any batch every core's usage is in [0, 100] |
| `Monitor.BatchKeepsCore` | src/monitor.rs:89-197 | a core addressed by no line keeps its counters and reports usage 0 |
| `Monitor.MemFieldLast` | src/monitor.rs:284-294 | each memory figure is read from the last line that starts with its key |
| `Monitor.MemFieldAbsent` | src/monitor.rs:280-283 | a figure whose key appears on no line stays 0 |
| `Monitor.MemKeysExclusive` | src/monitor.rs:285-293 | no line starts with two of the four keys, so the `else if` chain loses nothing |
| `Monitor.ReadMemory` | src/monitor.rs:277-295 | the loop returns, for each of the four keys, the figure of its last line |
| `Monitor.GpuLoad` | src/monitor.rs:261-273 | the GPU load is never negative |
| `Monitor.BusyPercent` | src/monitor.rs:268-272 | 0 for a zero total, and at most 100 when busy does not exceed total |
| `Monitor.GpuLoadOfCounters` | src/monitor.rs:264-267 | the text `busy total` gives busy over total in percent |
| `Monitor.Sampler.constructor` | src/monitor.rs:57-63 | one zeroed counter and one zero usage per core, tick 0, no storage figures |
| `Monitor.Sampler.UpdateCore` | src/monitor.rs:185-192 | the arrays are updated in place exactly as `CoreUpdate` says |
| `Monitor.Sampler.CoreLine` | src/monitor.rs:181-194 | a per-core tag for an existing core updates it; any other tag leaves the arrays unchanged |
| `Monitor.Sampler.NormalLine` | src/monitor.rs:161-196 | a normal-section line updates the readings and arrays as the transition says |
| `Monitor.Sampler.ProcessLine` | src/monitor.rs:104-197 | one loop iteration updates the flags, readings and arrays as one transition step |
| `Monitor.Sampler.ReadBatch` | src/monitor.rs:89-197 | the loop leaves the readings and arrays of the batch fold and consumes up to and including `END_OF_BATCH` |
| `Monitor.Sampler.SampleTick` | src/monitor.rs:65-241 | one tick keeps the sampler valid, refreshes storage only on a storage tick, runs the batch, builds the cores from its usages and advances the tick |
| `Monitor.StorageDueExactly` | src/monitor.rs:66 | of the next sixty ticks, exactly the computed offset is a storage tick |
| `Monitor.StorageCadence` | src/monitor.rs:14-80 | exactly one tick in every sixty consecutive ticks reads storage |
| `Monitor.BuildCores` | src/monitor.rs:200-212 | one core per static core, in order, with its usage and current frequency, or 0 past the end of their tables |
| `Discover.RoleOf` | src/discover.rs:55-62 | defined by its body: the trimmed, lower-cased type names the CPU when it contains `cpuss-0` or `aoss-0`, otherwise the GPU when it contains `gpuss-0`; see `Discover.CpuZoneFirst` |
| `Discover.CpuTempPath` | src/discover.rs:52-63 | defined by its body; see `Discover.CpuPathLastMatch` and `Discover.CpuPathDefault` |
| `Discover.GpuTempPath` | src/discover.rs:52-63 | defined by its body; see `Discover.GpuPathLastMatch` and `Discover.GpuPathDefault` |
| `Discover.IsCoreDir` | src/discover.rs:72-77 | defined by its body; see `Discover.CoreDirNames` and `Discover.CountCoreDirs` |
| `Discover.KernelVersion` | src/discover.rs:104-109 | defined by its body; see `Discover.KernelVersionToken` and `Discover.KernelVersionUnknown` |
| `Discover.ParseCoreLine` | src/discover.rs:132-148 | defined by its body, the words of the row given to `CoreOfWords`; see `Discover.ParseCoreLineOfWords` and `Discover.ShortCoreLine` |
| `Discover.CoreOfWords` | src/discover.rs:133-148 | defined by its body; see `Discover.ParseCoreLineOfWords` and `Discover.ShortCoreLine` |
| `Discover.CoreNumber` | src/discover.rs:152 | defined by its body; see `Discover.CoreNumberOfToken` and `Discover.CoreNumberOfDecimal` |
| `Discover.ThermalCandidates` | src/discover.rs:46-49 | the candidates are exactly the entries whose names start with `thermal_zone` |
| `Discover.NameKey` | src/discover.rs:50 | zones are compared by the code points of their file names |
| `Discover.CpuPathLastMatch` | src/discover.rs:52-63 | the CPU path is that of the last zone, in scan order, whose type names the CPU |
| `Discover.CpuPathDefault` | src/discover.rs:40-63 | without a CPU zone the default CPU path stays |
| `Discover.GpuPathLastMatch` | src/discover.rs:52-63 | the GPU path is that of the last zone, in scan order, whose type names the GPU |
| `Discover.GpuPathDefault` | src/discover.rs:41-63 | without a GPU zone the default GPU path stays |
| `Discover.CpuZoneFirst` | src/discover.rs:58-62 | a type naming both CPU and GPU counts as the CPU |
| `Discover.CountCoreDirs` | src/discover.rs:69-78 | at most the number of entries; all of them exactly when all are core directories, none exactly when none is |
| `Discover.CoreDirNames` | src/discover.rs:72-77 | `cpu0` and `cpu10` are core directories; `cpufreq`, `cpuidle` and `cpu` are not |
| `Discover.CountCoreDirsAppend` | src/discover.rs:70-78 | the count of a listing is the sum of the counts of its parts, so listing order does not matter |
| `Discover.CountNumberedCores` | src/discover.rs:66-78 | a listing of `cpu0` .. `cpu{k-1}` counts k |
| `Discover.KernelVersionToken` | src/discover.rs:104-109 | a banner of three or more words gives its third word |
| `Discover.KernelVersionUnknown` | src/discover.rs:104-109 | a shorter banner, or none, gives `unknown` |
| `Discover.ParseCoreLineOfWords` | src/discover.rs:132-148 | a row of four or more words gives core `cpu<first>`, the middle words joined by spaces, and the last two as frequencies |
| `Discover.ShortCoreLine` | src/discover.rs:133-137 | a row of fewer than four words is skipped |
| `Discover.ParsedCores` | src/discover.rs:131-149 | at most one core per row |
| `Discover.CoreNumberOfToken` | src/discover.rs:152 | a core named from `lscpu`'s first column is numbered by parsing that column, 0 when it does not parse |
| `Discover.CoreNumberOfDecimal` | src/discover.rs:152 | `cpuN` is numbered N |
| `Discover.SortedByCoreNumber` | src/discover.rs:151-154 | sorted by key means ascending in core number |
| `Discover.ProbeThermalAndCores` | src/discover.rs:39-82 | the zones scanned are the candidates sorted by name; the paths are those of the last CPU and GPU zones; the core count is that of the listing, 0 without one |
| `Discover.ProbeCoreInfo` | src/discover.rs:122-157 | the result is a permutation of the accepted rows, ascending in core number |
| `Sorting.SortBy` | src/discover.rs:151-154 | the array ends sorted by the key and a permutation of what it held |
| `Sorting.LexLeSingle` | src/discover.rs:153 | single-number keys are ordered as the numbers |
| `Text.Trim` | src/monitor.rs:105 | the result neither starts nor ends with whitespace, and a string that does neither is unchanged |
| `Text.SplitJoinedWords` | src/monitor.rs:349 | splitting words joined by single spaces on whitespace gives the words back |
| `Text.SplitOnJoin` | src/router.rs:74 | joining the pieces of a split with the separator gives the original string |
| `Text.StripPrefix` | src/monitor.rs:147 | the prefix is stripped exactly when the string starts with it, and it is the rest |
| `Text.SplitOnce` | src/monitor.rs:132 | nothing exactly when the separator is absent; otherwise the parts around its first occurrence |
| `Text.SplitAtWhitespace` | src/monitor.rs:162 | the tag is the longest whitespace-free prefix and the rest follows one whitespace character, or the rest is empty |
| `Text.Lines` | src/monitor.rs:284 | no line contains a newline |
| `Text.LinesEmpty` | src/monitor.rs:284 | the empty text has no lines |
| `Text.LinesSingle` | src/monitor.rs:284 | a non-empty text without a line feed is a single line, kept whole |
| `Text.LinesCons` | src/monitor.rs:284 | a line feed ends the line before it, less one trailing carriage return, and the lines after it follow |
| `Text.ToAsciiLower` | src/discover.rs:55 | same length, each character lower-cased as ASCII |
| `Text.Contains` | src/discover.rs:58 | true exactly when the pattern occurs at some position |
| `Text.ParseU64` | src/monitor.rs:350 | a value exactly when the text is an optional `+` and digits whose value is below 2^64, and then that value |
| `Text.ParseI32` | src/monitor.rs:173 | a value in the `i32` range, the negated digits after a `-` and otherwise the `u64` reading; and a value exactly when the digits after a `-` are non-empty with value at most 2^31, or otherwise the `u64` reading exists and is below 2^31 |
| `Text.ParseDecimal` | src/monitor.rs:182 | a number written in decimal parses back to itself |

## Left out

- I/O is left out: spawning `rish`, writing the command and reading its lines, and the `read_dir`, `read_to_string`, `statvfs`, `getprop` and `lscpu` calls. Their results are parameters, so the model cannot see failures other than a missing listing or file, which is `None`.
- The outer monitor loop's exit on a write failure, and the inner loop's exit when the stream ends or a line fails to decode, are left out. A batch is a finite sequence of lines.
- The sleep, the `watch` channel, Axum routing and percent-decoding of the path are left out. These are concurrency and framework code.
- `f32` arithmetic is left out: rounding, NaN, infinities, `clean_f32_precision`, and the divisions by 10, 1000 and 1024. Values are reals, and `parse::<f32>` is the parameter `parseF32`.
- `BatteryStatus::from_code` is not part of this model, and neither is its parameter type. The batch keeps the status code read as an `i32` (`parse().unwrap_or(0)` on the trimmed rest); were the parameter a `u8` or `u32`, texts such as `-1` or `300` would read differently.
- `read_sysfs_thermal`, `read_cpu_freqs` and `read_storage` are left out. They only parse one number or call `statvfs`. Their values enter `SampleTick` as arguments.
- The derived payload fields (memory used, MB conversions) and the `SystemStats` record are left out. They are `f32` arithmetic on the readings the model does produce.
- `filter_map(Result::ok)` on directory entries and `to_string_lossy` are left out. A listing is a sequence of valid names.
- `Monitor.CoreUpdate`: uses the corrected `Usage`, so when the idle delta exceeds the total delta it reports 0 where line 190 of `monitor.rs` wraps (release build) or panics (debug build); the formula as written is `UsageAsWritten` (see Findings).
- `Monitor.Sampler.UpdateCore`: updates the arrays with the corrected `Usage`, as `Monitor.CoreUpdate` does, not with the formula as written.
- `Sampler.SampleTick`: the tick is an unbounded natural, not a `u64`. Its wrap-around after 2^64 ticks is not modelled.
- `usize` overflow of the core count and of core indices is left out. Naturals are used instead.
- `Sorting.SortBy`: `sort_unstable_by` may order cores with equal numbers in any order, and so may the model. `sort_by_key` on zones is stable, but the model only promises sorted and a permutation, which fixes the order whenever names are distinct, as file names in one directory are.
- JSON objects keep insertion order, as `serde_json::Map` does with `preserve_order`. With the default `BTreeMap` the key order differs. Most proved properties are about lookups and do not depend on key order. Two do: `AttachName` promises that `name` comes first, and `EnumerateEndpoints` and `IndexEndpoints` fix the listing order, both of which hold with insertion order only.
- `Router.IndexEndpoints`: keeps the source's listing of every named element, including later elements of a repeated name; the listing that only resolvable paths appear in is `EndpointSegs(v, FirstNamed)`.

## Findings

| source | as written | input that shows it | evidently intended | confidence | as-written member | corrected member |
|---|---|---|---|---|---|---|
| src/monitor.rs:190 | `(dt - di)` is computed in `u64`. When the idle delta exceeds the total delta it wraps in a release build (a debug build panics), giving a usage far above 100 | previous counters (total 100, idle 10), new counters (150, 80): dt = 50, di = 70 | busy jiffies floored at zero, as the saturating subtractions on lines 186-187 suggest, so usage stays in [0, 100] | medium, not executed | `Monitor.UsageAsWrittenOverflows` | `Monitor.Usage` |
| src/router.rs:249-261 | the array loop lists every named element and its keys, while navigation and resolution (lines 146-148 and 202-204) find only the first element of a name | `{"arr": [{"name": "x"}, {"name": "x", "f": 1}]}`: `/arr/x/f` is listed, resolving it finds nothing | the index lists only paths that resolve, i.e. only the first element of each name | low, not executed | `Router.DuplicateNameUnresolved` | `Router.FirstNamedEndpointsResolve` |

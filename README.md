# UIMonitor sampling engine in Dafny

This project models the sampling engine of UIMonitor, a Windows terminal dashboard. The engine has three monitors, each of which turns cumulative OS counters into figures for one sampling cycle:

- **CpuMonitor** (`cpu_monitor.dfy`, module `Cpu`) keeps the previous idle, kernel and user system times. From the deltas to the next reading it computes the global busy percentage `(total - idle) / total * 100`.
- **MemoryMonitor** (`memory_monitor.dfy`, module `Memory`) holds one `MEMORYSTATUSEX` record, and every update overwrites it. The getters derive used and free RAM from that record.
- **ProcessMonitor** (`process_monitor.dfy`, module `Processes`) enumerates processes. For each pid it computes the CPU share as that process's kernel+user delta over the system's, using a pid-keyed history. It purges history for pids it no longer sees, then publishes the records sorted by CPU share, highest first. `process_properties.dfy` (module `ProcessProperties`) proves what one cycle promises about the records and the history.
- **formatBytes** (`format_bytes.dfy`, module `Format`) is the byte formatter the dashboard uses to pick a unit.

`counters.dfy` (module `Counters`) holds what the monitors share:
- FILETIME as a pair of 32-bit halves;
- the conversion to one 64-bit count, with its inverse;
- explicit wrap-around subtraction and addition modulo 2^64. These are what C++ `unsigned long long` arithmetic does.

Each Windows call becomes an input of the operation that makes it:
- `GetSystemTimes` is an `Option<SystemTimes>`, which is `None` on failure.
- The process enumeration is an `Option<seq<ProcessEntry>>`. `None` means `CreateToolhelp32Snapshot` failed, and the empty sequence means `Process32First` failed.
- Each `ProcessEntry` carries the outcome of `OpenProcess`, `GetProcessMemoryInfo` and `GetProcessTimes` for that process.
- `GlobalMemoryStatusEx` is a `MemoryReading`.
- The readings the constructors take are parameters.

The state the source updates in place lives in classes with the source's fields:
- `CpuMonitor`: `prevIdleTime`, `prevKernelTime`, `prevUserTime`, `globalUsage`;
- `MemoryMonitor`: `memInfo`;
- `ProcessMonitor`: `prevProcessTimes`, `processList`, `prevSysKernel`, `prevSysUser`.

`ProcessMonitor.Update` is proved against the specification functions `Records`, `HistoryAfter` and `NextHistory`. Its loop rewrites the history map field entry by entry, and its erase pass removes keys while walking them. The lemmas in `ProcessProperties` are stated about those functions.

The model follows the code as written, including where a reader might expect otherwise:
- The sort is `std::sort`, which is not stable. Only sortedness and permutation are modelled, not the preserved enumeration order among ties.
- `MemoryMonitor::update` ignores the return value of `GlobalMemoryStatusEx`, so the model has no "retain the previous snapshot on failure" branch.
- A failed `GetSystemTimes` in `ProcessMonitor::update` returns before the system baseline moves. Once the read succeeds, the baseline advances even if the enumeration then fails.

## Model

| member | source | states |
|---|---|---|
| Counters.FileTimeToInt64 | src/ProcessMonitor.cpp:27-30 | the 64-bit count keeps both halves: dividing by 2^32 gives back the high half and the remainder gives the low half, so the result is below 2^64 and nothing is lost |
| Counters.SplitInt64 | include/ProcessMonitor.hpp:62-68 | every 64-bit count of 100-ns intervals is the value of the FILETIME it splits into |
| Counters.FileTimeRoundTrip | include/CpuMonitor.hpp:40-46 | splitting the converted count gives back the original FILETIME |
| Counters.FileTimeToInt64Injective | src/CpuMonitor.cpp:8-10 | two FILETIMEs with the same 64-bit count are equal |
| Counters.Sub64 | src/CpuMonitor.cpp:18-20 | unsigned 64-bit difference: result plus subtrahend is the minuend modulo 2^64, and it is the plain difference when the counter did not go back |
| Counters.Add64 | src/CpuMonitor.cpp:35 | unsigned 64-bit sum: the sum modulo 2^64, and the plain sum when it fits |
| Cpu.UsagePercent | src/CpuMonitor.cpp:35-41 | usage is never negative; it is 0 when the kernel+user delta is 0; it is at most 100 when idle does not exceed total; idle == total gives 0 and idle == 0 gives 100 |
| Cpu.PlainUsageFormula | src/CpuMonitor.cpp:18-38 | on readings where no counter went back and idle is part of kernel+user, the wrapping computation equals (total - idle) / total * 100 over the plain differences and lies in [0, 100] |
| Cpu.TwoThirdsScenario | src/CpuMonitor.cpp:35-38 | the readings 100/150/50 then 110/170/60 give deltas 10/20/10 and usage 200/3 |
| Cpu.UnchangedReadingIsIdle | src/CpuMonitor.cpp:4-6 | a reading equal to the baseline gives usage 0, so the first update after construction with unchanged counters reports no spike |
| Cpu.CpuMonitor.constructor | src/CpuMonitor.cpp:4-6 | the baseline is the initial reading and the usage starts at 0 |
| Cpu.CpuMonitor.Update | src/CpuMonitor.cpp:12-46 | a failed read changes nothing; a successful read sets the usage from the deltas against the old baseline and always makes the reading the new baseline, even when the total is 0; on plausible readings the usage is in [0, 100] |
| Cpu.CpuMonitor.GetGlobalUsage | src/CpuMonitor.cpp:48-50 | returns the stored usage without changing state; it is never negative |
| Memory.MemoryMonitor.constructor | src/MemoryMonitor.cpp:4-7 | sets the structure size, then performs one update, so the getters report the first reading |
| Memory.MemoryMonitor.Update | src/MemoryMonitor.cpp:9-11 | the whole status is replaced by the provider's figures and the size field is kept; afterwards the getters return the reading's load, total and available values, and used is total - available |
| Memory.MemoryMonitor.GetMemoryUsagePercentage | src/MemoryMonitor.cpp:13-15 | the provider's load figure as is (its floor is dwMemoryLoad), non-negative and at most 100 whenever the provider's figure is |
| Memory.MemoryMonitor.GetTotalMemory | src/MemoryMonitor.cpp:17-19 | total RAM is the provider's 64-bit `ullTotalPhys`, unchanged |
| Memory.MemoryMonitor.GetFreeMemory | src/MemoryMonitor.cpp:25-27 | free RAM is the provider's `ullAvailPhys`, unchanged, and never exceeds total when available ≤ total |
| Memory.MemoryMonitor.GetUsedMemory | src/MemoryMonitor.cpp:21-23 | used plus free is total modulo 2^64, and exactly total with used ≤ total whenever available ≤ total |
| Processes.SysTotalDiff | src/ProcessMonitor.cpp:46-48 | the system delta is the sum of the kernel and user counter differences modulo 2^64, and exactly that sum when neither counter went back and the sum fits in 64 bits |
| Processes.EntryHistory | src/ProcessMonitor.cpp:114-115 | when the entry's times were read they become its pid's history and the key set gains exactly that pid; otherwise the history is unchanged |
| Processes.HistoryAfter | src/ProcessMonitor.cpp:114-115 | walking the entries never drops a pid from the history |
| Processes.NextHistory | src/ProcessMonitor.cpp:128-136 | after a cycle only enumerated pids have history, and no enumerated pid that had history loses it |
| Processes.CpuShare | src/ProcessMonitor.cpp:104-111 | a process's share is never negative and is 0 when the system delta is 0 |
| Processes.EntryRecord | src/ProcessMonitor.cpp:70-122 | the record keeps pid and name; an unopened process gets CPU 0 and memory 0; no times or no history gives CPU 0; times with history give CpuShare against the history; memory is the working set when queried and 0 otherwise |
| Processes.Records | src/ProcessMonitor.cpp:69-124 | one record per enumerated entry in enumeration order, each with that entry's pid and name and a non-negative share |
| Processes.Purge | src/ProcessMonitor.cpp:128-136 | after erasing, every key is a live pid, and no live pid's entry is removed or changed |
| Processes.SortByCpuDescending | src/ProcessMonitor.cpp:138-141 | the result is ordered by CPU share, non-increasing, and is a permutation (same multiset) of the input |
| Processes.ProcessMonitor.constructor | src/ProcessMonitor.cpp:22-25 | the system baseline is the initial kernel/user reading; history and list start empty |
| Processes.ProcessMonitor.GetProcesses | src/ProcessMonitor.cpp:32-34 | returns the stored list without changing state; it is sorted by CPU share and has no negative share |
| Processes.ProcessMonitor.Update | src/ProcessMonitor.cpp:36-144 | failed system read: nothing changes. Failed snapshot or Process32First: the baseline advances, list and history are kept. Otherwise: the baseline advances; the history becomes the purged walk history; the list is a sorted permutation of the records; the invariant holds that history keys are pids of the published list |
| Processes.ProcessMonitor.MeasureEntry | src/ProcessMonitor.cpp:70-122 | the record built for one entry is EntryRecord against the history so far; the history gains or overwrites that pid's times exactly when GetProcessTimes succeeded |
| Processes.ProcessMonitor.WalkEnumeration | src/ProcessMonitor.cpp:69-124 | the do-while builds Records in order, leaves HistoryAfter in the history field and collects exactly the enumerated pids |
| Processes.ProcessMonitor.EraseUnseen | src/ProcessMonitor.cpp:128-136 | erasing while iterating leaves exactly the history restricted to the current pids |
| ProcessProperties.RecordsAt | src/ProcessMonitor.cpp:69-124 | record k is entry k measured against the history left by the entries before it |
| ProcessProperties.HistoryUntouched | src/ProcessMonitor.cpp:88-116 | a pid whose open or time query failed in every one of its entries is neither added to the history nor changed in it |
| ProcessProperties.HistoryAfterKeys | src/ProcessMonitor.cpp:99-116 | a pid is in the history after the walk if and only if it was there before or one of its entries had its times read |
| ProcessProperties.HistoryOverwritten | src/ProcessMonitor.cpp:114-115 | with distinct pids, an entry whose times were read leaves exactly those times as its pid's history |
| ProcessProperties.RecordFromOldHistory | src/ProcessMonitor.cpp:99-112 | with distinct pids, every record is measured against the history as it stood when the cycle began |
| ProcessProperties.UnopenedProcessListedAsZero | src/ProcessMonitor.cpp:80-122 | a process that cannot be opened is still listed, with CPU 0 and memory 0 |
| ProcessProperties.MemoryFailureOnlyZeroesMemory | src/ProcessMonitor.cpp:91-95 | a failed memory query gives the same record with memory 0; CPU share and inclusion are unaffected |
| ProcessProperties.NewPidStartsAtZero | src/ProcessMonitor.cpp:99-116 | a pid without history gets CPU 0 this cycle, and when its times were read it gains a history entry holding them after the purge |
| ProcessProperties.ShareFromHistory | src/ProcessMonitor.cpp:101-111 | a pid with history and readable times gets its CpuShare against the stored times |
| ProcessProperties.PlainShareFormula | src/ProcessMonitor.cpp:104-110 | when the process counters did not go back or overflow, the share is ((k - prevK) + (u - prevU)) / sysTotal * 100 |
| ProcessProperties.QuarterShareScenario | src/ProcessMonitor.cpp:104-110 | history (5, 5), current (15, 5) and system delta 40 give a share of 25 |
| ProcessProperties.NextHistoryKeys | src/ProcessMonitor.cpp:128-136 | after a cycle a pid has history if and only if it was enumerated and either had history before or had its times read |
| ProcessProperties.UnreadPidKeepsHistory | src/ProcessMonitor.cpp:88-136 | an enumerated pid whose times could not be read keeps its old history entry unchanged |
| ProcessProperties.ReappearingPidStartsAtZero | src/ProcessMonitor.cpp:101-136 | a pid missing from one enumeration gets CPU 0 when it reappears in a later one |
| ProcessProperties.PurgeScenario | src/ProcessMonitor.cpp:128-136 | pids {1, 2, 3} and then {1, 3}: pid 2's history is gone after the second cycle, while 1 and 3 keep theirs |
| ProcessProperties.RecordsPids | src/ProcessMonitor.cpp:71-83 | the records carry exactly the enumerated pids (currentPids) |
| Format.UnitOf | src/main.cpp:18-23 | the unit index is in 0..4, so it is a valid suffix index; the count reaches the chosen unit's size; unless the unit is TB, the count is below the next unit's size |
| Format.ScaleDown | src/main.cpp:22-23 | the loop terminates. It stops at the unit UnitOf picks, which is the first with quotient below 1024, capped at TB. The value it leaves is floor(bytes / 1024^(i-1)) / 1024 |
| Format.FormatBytes | src/main.cpp:17-28 | as written: a count of at most 1024, including 1024 itself, is shown unscaled with "B"; a larger count is shown in UnitOf's unit with the scaled value |
| Format.FormatBytesCorrected | src/main.cpp:17-28 | without the guard, every count is shown in UnitOf's unit, with a value of at least 1 above bytes and below 1024 below TB |
| Format.ShownValueInRange | src/main.cpp:22-26 | in the unit UnitOf picks, the displayed figure is at least 1 for KB and above, and below 1024 for every unit below TB |
| Format.AsWrittenDiffersOnlyAtKilo | src/main.cpp:21 | the unit chosen as written differs from UnitOf at exactly one count, 1024, which is shown as 1024 B instead of 1 KB |

## Left out

- Windows API calls (`GetSystemTimes`, `CreateToolhelp32Snapshot`, `Process32First`/`Process32Next`, `OpenProcess`, `GetProcessTimes`, `GetProcessMemoryInfo`, `GlobalMemoryStatusEx`, `CloseHandle`) are foreign calls. They are parameters or option-valued inputs, and handle lifetimes are not modelled.
- A failed `GetSystemTimes` in a constructor leaves the baseline `FILETIME`s indeterminate. The constructors take an arbitrary initial reading, which covers any such value.
- `WCharToString` (src/ProcessMonitor.cpp:11-20) wraps `WideCharToMultiByte`. Process names are opaque strings.
- Only `dwLength`, `dwMemoryLoad`, `ullTotalPhys` and `ullAvailPhys` of `MEMORYSTATUSEX` are modelled. The monitor reads no other field. `GlobalMemoryStatusEx` does not define the record's contents after a failure, so the model takes whatever reading the provider hands over.
- Cpu.CpuMonitor.GetGlobalUsage: only guarantees a non-negative value. The documented 0–100 range is proved for plausible readings in `Update` and in `PlainUsageFormula`. If an idle delta ever exceeded the kernel+user delta, the unsigned difference would wrap and the code would produce a value above 100.
- Memory.MemoryMonitor.GetMemoryUsagePercentage: lies in 0–100 only as far as the provider's `dwMemoryLoad` does. The code passes that figure through unchecked.
- The model assumes a 64-bit build, where `size_t` is 64 bits. On a 32-bit build `getTotalMemory`, `getUsedMemory` and `getFreeMemory` would truncate `ullTotalPhys` and `ullAvailPhys` to 32 bits, and `formatBytes` would take a 32-bit argument; that truncation is not modelled.
- IEEE double rounding in the percentage formulas is not modelled. Percentages are exact `real` ratios.
- `formatBytes` returns the displayed figure and the suffix, not the `setprecision(1)` string. Decimal rendering and its rounding (1048575 bytes prints as "1024.0 KB") are not modelled.
- Processes.SortByCpuDescending: only sortedness and permutation are promised. `std::sort` is not stable, so the order among equal shares is unspecified. The sort runs on a local sequence, by selection with swaps, instead of on the vector's storage.
- `ProcessMonitor::update` is a single function in the source. The model splits its loop and its erase pass into the methods `MeasureEntry`, `WalkEnumeration` and `EraseUnseen` of the same class, which change only the history field.
- `unordered_map` iteration order in the erase pass is unspecified. The model removes keys in an arbitrary order, and the result does not depend on that order.
- The per-record lemmas assume that an enumeration has distinct pids, as a Toolhelp snapshot does. `Records` and `HistoryAfter` themselves also define duplicate pids, folding entries in order as the code does.
- Everything in main.cpp except `formatBytes` is user interface or concurrency: the renderer, table layout and top-rows cutoff, the updater thread, atomics, mutex, `PostEvent`, `sleep_for`, `detach`, and the `(int)` casts in the publish step.

## Findings

| source | as written | input that shows it | evidently intended | confidence | as-written member | corrected member |
|---|---|---|---|---|---|---|
| src/main.cpp:21 | `if (bytes > 1024)` keeps a count of exactly 1024 out of the scaling loop | bytes = 1024 is shown as "1024.0 B", while 1025 is shown as "1.0 KB" and 1048576 as "1.0 MB" (lemma Format.AsWrittenDiffersOnlyAtKilo) | move to the next unit once the count reaches 1024, as the loop's own test `bytes / 1024 > 0` does for every larger unit; the loop alone already leaves smaller counts in bytes | medium, not executed | Format.FormatBytes | Format.FormatBytesCorrected |

/**
 * The per-process sampler (ProcessMonitor). Each update reads the system
 * kernel/user counters, walks the process enumeration building one record
 * per entry, computes each process's CPU share from a pid-keyed history of
 * its previous kernel/user times, drops history for pids not seen this
 * cycle, sorts the records by CPU share and publishes them.
 *
 * The Windows calls are inputs: GetSystemTimes is an Option<SystemTimes>;
 * the enumeration is an Option<seq<ProcessEntry>> (None when the snapshot
 * cannot be created, the empty sequence when Process32First fails); per
 * entry, OpenProcess, GetProcessMemoryInfo and GetProcessTimes are options
 * inside ProcessEntry.
 */
module Processes {
  import opened Counters

  /** A Windows process id (DWORD). */
  type Pid = U32

  /** One row of the published list. cpuUsage is a percentage of the
      system's kernel+user time over the interval; memoryUsage is the
      working-set size in bytes. */
  datatype ProcessInfo = ProcessInfo(pid: Pid, name: string, cpuUsage: real, memoryUsage: U64)

  /** Kernel and user times of one process (ProcessTimeInfo). */
  datatype ProcessTimes = ProcessTimes(kernel: FileTime, user: FileTime)

  /** What an opened process handle yields: the working set when
      GetProcessMemoryInfo succeeds, the times when GetProcessTimes does. */
  datatype ProcessHandle = ProcessHandle(workingSet: Option<U64>, times: Option<ProcessTimes>)

  /** One PROCESSENTRY32 of the enumeration, with the outcome of
      OpenProcess on it (None when the process cannot be opened). */
  datatype ProcessEntry = ProcessEntry(pid: Pid, name: string, handle: Option<ProcessHandle>)

  /** prevProcessTimes: at most one (lastKernel, lastUser) per pid. */
  type History = map<Pid, ProcessTimes>

  /** The kernel+user delta of the whole system over the interval: the
      plain sum of the two counter differences modulo 2^64, and that sum
      itself when neither counter went back and it fits in 64 bits. */
  function SysTotalDiff(prevKernel: FileTime, prevUser: FileTime, now: SystemTimes): (r: U64)
    ensures r == ((FileTimeToInt64(now.kernel) - FileTimeToInt64(prevKernel))
                + (FileTimeToInt64(now.user) - FileTimeToInt64(prevUser))) % TwoTo64
    ensures NotBehind(prevKernel, now.kernel) && NotBehind(prevUser, now.user) &&
            Delta(prevKernel, now.kernel) + Delta(prevUser, now.user) < TwoTo64 ==>
              r == (FileTimeToInt64(now.kernel) - FileTimeToInt64(prevKernel))
                 + (FileTimeToInt64(now.user) - FileTimeToInt64(prevUser))
  {
    Add64(Delta(prevKernel, now.kernel), Delta(prevUser, now.user))
  }

  /** A process's share of the system time over the interval, in percent:
      its own kernel+user delta over the system's, 0 when the system
      delta is 0. */
  function CpuShare(cur: ProcessTimes, prev: ProcessTimes, sysTotal: U64): (r: real)
    ensures r >= 0.0
    ensures sysTotal == 0 ==> r == 0.0
  {
    var procTotal := Add64(Delta(prev.kernel, cur.kernel), Delta(prev.user, cur.user));
    if sysTotal > 0 then procTotal as real / sysTotal as real * 100.0 else 0.0
  }

  /** The process could be opened and its times were read. */
  predicate TimesRead(e: ProcessEntry)
  {
    e.handle.Some? && e.handle.value.times.Some?
  }

  /** The record built for one entry against the history as it stands
      when the entry is reached. */
  function EntryRecord(e: ProcessEntry, hist: History, sysTotal: U64): (r: ProcessInfo)
    ensures r.pid == e.pid && r.name == e.name && r.cpuUsage >= 0.0
    ensures e.handle.None? ==> r.cpuUsage == 0.0 && r.memoryUsage == 0
    ensures !TimesRead(e) || e.pid !in hist ==> r.cpuUsage == 0.0
    ensures TimesRead(e) && e.pid in hist ==> r.cpuUsage == CpuShare(e.handle.value.times.value, hist[e.pid], sysTotal)
    ensures e.handle.Some? && e.handle.value.workingSet.Some? ==> r.memoryUsage == e.handle.value.workingSet.value
    ensures e.handle.Some? && e.handle.value.workingSet.None? ==> r.memoryUsage == 0
  {
    match e.handle
    case None => ProcessInfo(e.pid, e.name, 0.0, 0)
    case Some(h) =>
      ProcessInfo(e.pid, e.name,
                  if h.times.Some? && e.pid in hist then CpuShare(h.times.value, hist[e.pid], sysTotal) else 0.0,
                  if h.workingSet.Some? then h.workingSet.value else 0)
  }

  /** The history after one entry: its times replace any earlier ones when
      they were read; otherwise the history is left as it was. */
  function EntryHistory(e: ProcessEntry, hist: History): (r: History)
    ensures TimesRead(e) ==> e.pid in r && r[e.pid] == e.handle.value.times.value
    ensures !TimesRead(e) ==> r == hist
    ensures r.Keys == hist.Keys + (if TimesRead(e) then {e.pid} else {})
  {
    if TimesRead(e) then hist[e.pid := e.handle.value.times.value] else hist
  }

  /** The history after walking the entries in order. The walk only adds
      or overwrites: every pid it had stays. */
  function HistoryAfter(entries: seq<ProcessEntry>, hist: History): (r: History)
    decreases |entries|
    ensures hist.Keys <= r.Keys
  {
    if entries == [] then hist
    else
      var n := |entries| - 1;
      EntryHistory(entries[n], HistoryAfter(entries[..n], hist))
  }

  /** The records built for the entries, in enumeration order: entry k is
      measured against the history left by entries 0..k-1. */
  function Records(entries: seq<ProcessEntry>, hist: History, sysTotal: U64): (r: seq<ProcessInfo>)
    decreases |entries|
    ensures |r| == |entries|
    ensures forall k :: 0 <= k < |r| ==>
              r[k].pid == entries[k].pid && r[k].name == entries[k].name && r[k].cpuUsage >= 0.0
  {
    if entries == [] then []
    else
      var n := |entries| - 1;
      Records(entries[..n], hist, sysTotal) + [EntryRecord(entries[n], HistoryAfter(entries[..n], hist), sysTotal)]
  }

  /** The pids of an enumeration (currentPids). */
  function Pids(entries: seq<ProcessEntry>): set<Pid>
  {
    set e | e in entries :: e.pid
  }

  /** The pids of a list of records. */
  function ListPids(list: seq<ProcessInfo>): set<Pid>
  {
    set r | r in list :: r.pid
  }

  /** The history with every pid outside `live` erased. */
  function Purge(hist: History, live: set<Pid>): (r: History)
    ensures r.Keys <= live && r.Keys <= hist.Keys
    ensures forall p :: p in live && p in hist ==> p in r && r[p] == hist[p]
  {
    map p | p in hist && p in live :: hist[p]
  }

  /** The history a successful cycle over `entries` leaves behind: only
      enumerated pids have an entry, and no enumerated pid that had one
      loses it. */
  function NextHistory(hist: History, entries: seq<ProcessEntry>): (r: History)
    ensures r.Keys <= Pids(entries)
    ensures forall p :: p in hist && p in Pids(entries) ==> p in r
  {
    Purge(HistoryAfter(entries, hist), Pids(entries))
  }

  /** No two entries of the enumeration share a pid. */
  predicate DistinctPids(entries: seq<ProcessEntry>)
  {
    forall i, j :: 0 <= i < j < |entries| ==> entries[i].pid != entries[j].pid
  }

  /** Ordered by CPU share, highest first. */
  predicate SortedByCpuDesc(s: seq<ProcessInfo>)
  {
    forall i, j :: 0 <= i < j < |s| ==> s[i].cpuUsage >= s[j].cpuUsage
  }

  /** The enumeration yielded at least a first entry. */
  predicate Enumerated(snapshot: Option<seq<ProcessEntry>>)
  {
    snapshot.Some? && snapshot.value != []
  }

  /** The position of a highest CPU share in s[from..]. */
  method IndexOfMaxCpu(s: seq<ProcessInfo>, from: nat) returns (m: nat)
    requires from < |s|
    ensures from <= m < |s|
    ensures forall k :: from <= k < |s| ==> s[k].cpuUsage <= s[m].cpuUsage
  {
    m := from;
    var k := from + 1;
    while k < |s|
      invariant from <= m < k <= |s|
      invariant forall j :: from <= j < k ==> s[j].cpuUsage <= s[m].cpuUsage
    {
      if s[k].cpuUsage > s[m].cpuUsage {
        m := k;
      }
      k := k + 1;
    }
  }

  /** s with the elements at i and j exchanged. */
  function Swap(s: seq<ProcessInfo>, i: nat, j: nat): (t: seq<ProcessInfo>)
    requires i < |s| && j < |s|
    ensures |t| == |s| && t[i] == s[j] && t[j] == s[i]
    ensures forall k :: 0 <= k < |s| && k != i && k != j ==> t[k] == s[k]
    ensures multiset(t) == multiset(s)
  {
    s[i := s[j]][j := s[i]]
  }

  /** Sorts by CPU share, highest first, by swapping elements in place.
      Like std::sort it promises nothing about the order of equal shares. */
  method SortByCpuDescending(s: seq<ProcessInfo>) returns (r: seq<ProcessInfo>)
    ensures SortedByCpuDesc(r)
    ensures multiset(r) == multiset(s)
  {
    r := s;
    var i := 0;
    while i < |r|
      invariant 0 <= i <= |r|
      invariant multiset(r) == multiset(s)
      invariant forall a, b :: 0 <= a < b < i ==> r[a].cpuUsage >= r[b].cpuUsage
      invariant forall a, b :: 0 <= a < i <= b < |r| ==> r[a].cpuUsage >= r[b].cpuUsage
    {
      var m := IndexOfMaxCpu(r, i);
      r := Swap(r, i, m);
      i := i + 1;
    }
  }

  class ProcessMonitor {
    var prevProcessTimes: History
    var processList: seq<ProcessInfo>
    var prevSysKernel: FileTime
    var prevSysUser: FileTime

    /** The published list is sorted and has no negative share, and the
        history only holds pids of the enumeration the list came from. */
    ghost predicate Valid()
      reads this
    {
      SortedByCpuDesc(processList) &&
      (forall r :: r in processList ==> r.cpuUsage >= 0.0) &&
      prevProcessTimes.Keys <= ListPids(processList)
    }

    /** Seeds the system baseline from one GetSystemTimes reading of the
        kernel and user counters; no history, nothing published. */
    constructor (bootKernel: FileTime, bootUser: FileTime)
      ensures Valid()
      ensures prevSysKernel == bootKernel && prevSysUser == bootUser
      ensures prevProcessTimes == map[] && processList == []
    {
      prevSysKernel, prevSysUser := bootKernel, bootUser;
      prevProcessTimes := map[];
      processList := [];
    }

    /** The last published list, sorted by CPU share; reading it changes
        nothing. */
    function GetProcesses(): (r: seq<ProcessInfo>)
      reads this
      requires Valid()
      ensures SortedByCpuDesc(r)
      ensures forall i :: 0 <= i < |r| ==> r[i].cpuUsage >= 0.0
    {
      processList
    }

    /** One sampling cycle. */
    method Update(sys: Option<SystemTimes>, snapshot: Option<seq<ProcessEntry>>)
      requires Valid()
      modifies this
      ensures Valid()
      // GetSystemTimes fails: nothing changes
      ensures sys.None? ==> unchanged(this)
      // otherwise the system baseline always advances
      ensures sys.Some? ==> prevSysKernel == sys.value.kernel && prevSysUser == sys.value.user
      // no enumeration: list and history are kept
      ensures sys.Some? && !Enumerated(snapshot) ==>
                prevProcessTimes == old(prevProcessTimes) && processList == old(processList)
      // an enumeration: records built in order, history advanced and purged, list sorted
      ensures sys.Some? && Enumerated(snapshot) ==>
                var total := SysTotalDiff(old(prevSysKernel), old(prevSysUser), sys.value);
                prevProcessTimes == NextHistory(old(prevProcessTimes), snapshot.value) &&
                multiset(processList) == multiset(Records(snapshot.value, old(prevProcessTimes), total)) &&
                SortedByCpuDesc(processList)
    {
      if sys.None? {
        return;
      }
      var now := sys.value;
      var sysKernelDiff := Sub64(FileTimeToInt64(now.kernel), FileTimeToInt64(prevSysKernel));
      var sysUserDiff := Sub64(FileTimeToInt64(now.user), FileTimeToInt64(prevSysUser));
      var sysTotalDiff := Add64(sysKernelDiff, sysUserDiff);

      prevSysKernel := now.kernel;
      prevSysUser := now.user;

      if snapshot.None? || snapshot.value == [] {
        return;
      }
      var entries := snapshot.value;
      ghost var hist0 := prevProcessTimes;
      var newProcessList, currentPids := WalkEnumeration(entries, sysTotalDiff);
      EraseUnseen(currentPids);
      newProcessList := SortByCpuDescending(newProcessList);
      processList := newProcessList;
      PublishedListIsValid(entries, hist0, sysTotalDiff, processList);
    }

    /** Builds the record of one enumerated process and, when its times
        were read, records them in the history for the next cycle. */
    method MeasureEntry(pe: ProcessEntry, sysTotalDiff: U64) returns (info: ProcessInfo)
      modifies this`prevProcessTimes
      ensures info == EntryRecord(pe, old(prevProcessTimes), sysTotalDiff)
      ensures prevProcessTimes == EntryHistory(pe, old(prevProcessTimes))
    {
      info := ProcessInfo(pe.pid, pe.name, 0.0, 0);
      if pe.handle.Some? {
        var h := pe.handle.value;
        if h.workingSet.Some? {
          info := info.(memoryUsage := h.workingSet.value);
        }
        if h.times.Some? {
          if pe.pid in prevProcessTimes {
            var prev := prevProcessTimes[pe.pid];
            var procKernelDiff := Sub64(FileTimeToInt64(h.times.value.kernel), FileTimeToInt64(prev.kernel));
            var procUserDiff := Sub64(FileTimeToInt64(h.times.value.user), FileTimeToInt64(prev.user));
            var procTotalDiff := Add64(procKernelDiff, procUserDiff);
            if sysTotalDiff > 0 {
              info := info.(cpuUsage := procTotalDiff as real / sysTotalDiff as real * 100.0);
            }
          }
          prevProcessTimes := prevProcessTimes[pe.pid := h.times.value];
        }
      }
    }

    /** The do-while over Process32First/Process32Next: one record per
        entry in enumeration order, the history updated as it goes. */
    method WalkEnumeration(entries: seq<ProcessEntry>, sysTotalDiff: U64)
      returns (newProcessList: seq<ProcessInfo>, currentPids: set<Pid>)
      modifies this`prevProcessTimes
      ensures newProcessList == Records(entries, old(prevProcessTimes), sysTotalDiff)
      ensures prevProcessTimes == HistoryAfter(entries, old(prevProcessTimes))
      ensures currentPids == Pids(entries)
    {
      newProcessList, currentPids := [], {};
      var i := 0;
      while i < |entries|
        invariant 0 <= i <= |entries|
        invariant newProcessList == Records(entries[..i], old(prevProcessTimes), sysTotalDiff)
        invariant prevProcessTimes == HistoryAfter(entries[..i], old(prevProcessTimes))
        invariant currentPids == Pids(entries[..i])
      {
        var pe := entries[i];
        currentPids := currentPids + {pe.pid};
        var info := MeasureEntry(pe, sysTotalDiff);
        newProcessList := newProcessList + [info];
        PrefixStep(entries, i, old(prevProcessTimes), sysTotalDiff);
        i := i + 1;
      }
      assert entries[..i] == entries;
    }

    /** Erases, while iterating over the history, every pid not seen in
        this enumeration. */
    method EraseUnseen(currentPids: set<Pid>)
      modifies this`prevProcessTimes
      ensures prevProcessTimes == Purge(old(prevProcessTimes), currentPids)
    {
      var remaining := prevProcessTimes.Keys;
      while remaining != {}
        invariant remaining <= old(prevProcessTimes).Keys
        invariant prevProcessTimes
                  == map p | p in old(prevProcessTimes) && (p in currentPids || p in remaining) :: old(prevProcessTimes)[p]
        decreases remaining
      {
        var p :| p in remaining;
        if p !in currentPids {
          prevProcessTimes := prevProcessTimes - {p};
        }
        remaining := remaining - {p};
      }
    }
  }

  /** Extending the walked prefix by one entry extends the records, the
      history and the pid set by that entry. */
  lemma PrefixStep(entries: seq<ProcessEntry>, i: nat, hist: History, sysTotal: U64)
    requires i < |entries|
    ensures Records(entries[..i + 1], hist, sysTotal)
            == Records(entries[..i], hist, sysTotal) + [EntryRecord(entries[i], HistoryAfter(entries[..i], hist), sysTotal)]
    ensures HistoryAfter(entries[..i + 1], hist) == EntryHistory(entries[i], HistoryAfter(entries[..i], hist))
    ensures Pids(entries[..i + 1]) == Pids(entries[..i]) + {entries[i].pid}
  {
    assert entries[..i + 1][..i] == entries[..i];
    assert entries[..i + 1] == entries[..i] + [entries[i]];
  }

  /** A list that is a sorted permutation of this cycle's records satisfies
      the monitor's invariant together with the purged history. */
  lemma PublishedListIsValid(entries: seq<ProcessEntry>, hist: History, sysTotal: U64, list: seq<ProcessInfo>)
    requires multiset(list) == multiset(Records(entries, hist, sysTotal))
    ensures forall r :: r in list ==> r.cpuUsage >= 0.0
    ensures NextHistory(hist, entries).Keys <= ListPids(list)
  {
    var recs := Records(entries, hist, sysTotal);
    forall r | r in list
      ensures r.cpuUsage >= 0.0
    {
      assert r in multiset(recs);
    }
    forall p | p in NextHistory(hist, entries)
      ensures p in ListPids(list)
    {
      var e :| e in entries && e.pid == p;
      var k :| 0 <= k < |entries| && entries[k] == e;
      assert recs[k] in multiset(list);
    }
  }
}

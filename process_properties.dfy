/**
 * What one ProcessMonitor cycle promises about the records it builds and
 * the history it leaves, stated over the specification functions that
 * ProcessMonitor.Update is proved against.
 */
module ProcessProperties {
  import opened Counters
  import opened Processes

  /** Record k is entry k measured against the history left by the
      entries before it. */
  lemma {:induction false} RecordsAt(entries: seq<ProcessEntry>, hist: History, sysTotal: U64, k: nat)
    requires k < |entries|
    ensures Records(entries, hist, sysTotal)[k] == EntryRecord(entries[k], HistoryAfter(entries[..k], hist), sysTotal)
    decreases |entries|
  {
    var n := |entries| - 1;
    if k < n {
      RecordsAt(entries[..n], hist, sysTotal, k);
      assert entries[..n][..k] == entries[..k];
    }
  }

  /** A pid whose times no entry read keeps exactly its old history: it is
      neither added nor changed (OpenProcess or GetProcessTimes failed). */
  lemma {:induction false} HistoryUntouched(entries: seq<ProcessEntry>, hist: History, p: Pid)
    requires forall k :: 0 <= k < |entries| && entries[k].pid == p ==> !TimesRead(entries[k])
    ensures p in HistoryAfter(entries, hist) <==> p in hist
    ensures p in hist ==> HistoryAfter(entries, hist)[p] == hist[p]
    decreases |entries|
  {
    if entries != [] {
      var n := |entries| - 1;
      HistoryUntouched(entries[..n], hist, p);
    }
  }

  /** A pid is in the history after the walk exactly when it was there
      before or some entry with that pid had its times read. */
  lemma {:induction false} HistoryAfterKeys(entries: seq<ProcessEntry>, hist: History, p: Pid)
    ensures p in HistoryAfter(entries, hist) <==>
            p in hist || exists k :: 0 <= k < |entries| && entries[k].pid == p && TimesRead(entries[k])
    decreases |entries|
  {
    if entries != [] {
      var n := |entries| - 1;
      HistoryAfterKeys(entries[..n], hist, p);
      if exists k :: 0 <= k < n && entries[..n][k].pid == p && TimesRead(entries[..n][k]) {
        var k :| 0 <= k < n && entries[..n][k].pid == p && TimesRead(entries[..n][k]);
        assert entries[k] == entries[..n][k];
      }
      if exists k :: 0 <= k < |entries| && entries[k].pid == p && TimesRead(entries[k]) {
        var k :| 0 <= k < |entries| && entries[k].pid == p && TimesRead(entries[k]);
        if k < n {
          assert entries[..n][k] == entries[k];
        }
      }
    }
  }

  /** An entry whose times were read leaves them as its pid's history
      (pids of one enumeration are distinct). */
  lemma {:induction false} HistoryOverwritten(entries: seq<ProcessEntry>, hist: History, k: nat)
    requires DistinctPids(entries) && k < |entries| && TimesRead(entries[k])
    ensures entries[k].pid in HistoryAfter(entries, hist)
    ensures HistoryAfter(entries, hist)[entries[k].pid] == entries[k].handle.value.times.value
    decreases |entries|
  {
    var n := |entries| - 1;
    if k < n {
      HistoryOverwritten(entries[..n], hist, k);
    }
  }

  /** With distinct pids, record k is entry k measured against the history
      as it was when the cycle began. */
  lemma RecordFromOldHistory(entries: seq<ProcessEntry>, hist: History, sysTotal: U64, k: nat)
    requires DistinctPids(entries) && k < |entries|
    ensures Records(entries, hist, sysTotal)[k] == EntryRecord(entries[k], hist, sysTotal)
  {
    RecordsAt(entries, hist, sysTotal, k);
    HistoryUntouched(entries[..k], hist, entries[k].pid);
  }

  /** A process that could not be opened is still listed, with no CPU
      share and no memory. */
  lemma UnopenedProcessListedAsZero(entries: seq<ProcessEntry>, hist: History, sysTotal: U64, k: nat)
    requires k < |entries| && entries[k].handle.None?
    ensures |Records(entries, hist, sysTotal)| == |entries|
    ensures Records(entries, hist, sysTotal)[k] == ProcessInfo(entries[k].pid, entries[k].name, 0.0, 0)
  {
    RecordsAt(entries, hist, sysTotal, k);
  }

  /** A failed memory query zeroes the memory figure and nothing else: the
      same entry with GetProcessMemoryInfo failing gets the same record
      with memory 0. */
  lemma MemoryFailureOnlyZeroesMemory(e: ProcessEntry, hist: History, sysTotal: U64)
    requires e.handle.Some?
    ensures var failed := e.(handle := Some(e.handle.value.(workingSet := None)));
            EntryRecord(failed, hist, sysTotal) == EntryRecord(e, hist, sysTotal).(memoryUsage := 0)
  {
  }

  /** A pid with no history gets share 0 this cycle, and gains a history
      entry holding its current times when they were read. */
  lemma NewPidStartsAtZero(entries: seq<ProcessEntry>, hist: History, sysTotal: U64, k: nat)
    requires DistinctPids(entries) && k < |entries| && entries[k].pid !in hist
    ensures Records(entries, hist, sysTotal)[k].cpuUsage == 0.0
    ensures TimesRead(entries[k]) ==>
              entries[k].pid in NextHistory(hist, entries) &&
              NextHistory(hist, entries)[entries[k].pid] == entries[k].handle.value.times.value
  {
    RecordFromOldHistory(entries, hist, sysTotal, k);
    if TimesRead(entries[k]) {
      HistoryOverwritten(entries, hist, k);
      assert entries[k] in entries;
    }
  }

  /** A pid with history and readable times gets its share of the system
      delta since the last cycle. */
  lemma ShareFromHistory(entries: seq<ProcessEntry>, hist: History, sysTotal: U64, k: nat)
    requires DistinctPids(entries) && k < |entries| && TimesRead(entries[k]) && entries[k].pid in hist
    ensures Records(entries, hist, sysTotal)[k].cpuUsage
            == CpuShare(entries[k].handle.value.times.value, hist[entries[k].pid], sysTotal)
  {
    RecordFromOldHistory(entries, hist, sysTotal, k);
  }

  /** On counters that did not go back and did not overflow, the share is
      ((k - prevK) + (u - prevU)) / sysTotal * 100. */
  lemma PlainShareFormula(cur: ProcessTimes, prev: ProcessTimes, sysTotal: U64)
    requires NotBehind(prev.kernel, cur.kernel) && NotBehind(prev.user, cur.user)
    requires Delta(prev.kernel, cur.kernel) + Delta(prev.user, cur.user) < TwoTo64
    requires sysTotal > 0
    ensures var proc := (FileTimeToInt64(cur.kernel) - FileTimeToInt64(prev.kernel))
                      + (FileTimeToInt64(cur.user) - FileTimeToInt64(prev.user));
            CpuShare(cur, prev, sysTotal) == proc as real / sysTotal as real * 100.0
  {
  }

  /** History (kernel 5, user 5), now (kernel 15, user 5), system delta 40:
      process delta 10, share 25. */
  lemma QuarterShareScenario()
    ensures CpuShare(ProcessTimes(FileTime(0, 15), FileTime(0, 5)), ProcessTimes(FileTime(0, 5), FileTime(0, 5)), 40)
            == 25.0
  {
  }

  /** After a cycle, the history holds exactly the enumerated pids that had
      history before or had their times read this cycle. */
  lemma NextHistoryKeys(hist: History, entries: seq<ProcessEntry>, p: Pid)
    ensures p in NextHistory(hist, entries) <==>
            p in Pids(entries) &&
            (p in hist || exists k :: 0 <= k < |entries| && entries[k].pid == p && TimesRead(entries[k]))
  {
    HistoryAfterKeys(entries, hist, p);
  }

  /** A pid whose times were not read this cycle keeps its old entry, if it
      was enumerated. */
  lemma UnreadPidKeepsHistory(hist: History, entries: seq<ProcessEntry>, p: Pid)
    requires p in hist && p in Pids(entries)
    requires forall k :: 0 <= k < |entries| && entries[k].pid == p ==> !TimesRead(entries[k])
    ensures p in NextHistory(hist, entries) && NextHistory(hist, entries)[p] == hist[p]
  {
    HistoryUntouched(entries, hist, p);
  }

  /** A pid that was absent from one enumeration and comes back in a later
      one starts again at share 0: its history was purged in between. */
  lemma ReappearingPidStartsAtZero(hist: History, gone: seq<ProcessEntry>, back: seq<ProcessEntry>,
                                   sysTotal: U64, k: nat)
    requires DistinctPids(back) && k < |back| && back[k].pid !in Pids(gone)
    ensures Records(back, NextHistory(hist, gone), sysTotal)[k].cpuUsage == 0.0
  {
    NewPidStartsAtZero(back, NextHistory(hist, gone), sysTotal, k);
  }

  /** Pids 1, 2, 3 in one cycle and 1, 3 in the next: pid 2's history is
      gone after the second cycle, while 1 and 3 keep theirs. */
  lemma PurgeScenario(t: ProcessTimes)
    ensures var seen := Some(ProcessHandle(None, Some(t)));
            var h1 := NextHistory(map[], [ProcessEntry(1, "a", seen), ProcessEntry(2, "b", seen), ProcessEntry(3, "c", seen)]);
            var h2 := NextHistory(h1, [ProcessEntry(1, "a", seen), ProcessEntry(3, "c", seen)]);
            2 in h1 && 2 !in h2 && 1 in h2 && 3 in h2
  {
    var seen := Some(ProcessHandle(None, Some(t)));
    var c1 := [ProcessEntry(1, "a", seen), ProcessEntry(2, "b", seen), ProcessEntry(3, "c", seen)];
    var c2 := [ProcessEntry(1, "a", seen), ProcessEntry(3, "c", seen)];
    assert c1[1].pid == 2 && c1[0].pid == 1 && c1[2].pid == 3;
    NextHistoryKeys(map[], c1, 1);
    NextHistoryKeys(map[], c1, 2);
    NextHistoryKeys(map[], c1, 3);
    assert c2[0].pid == 1 && c2[1].pid == 3;
    var h1 := NextHistory(map[], c1);
    NextHistoryKeys(h1, c2, 1);
    NextHistoryKeys(h1, c2, 3);
  }

  /** The records of a cycle carry exactly the enumerated pids. */
  lemma RecordsPids(entries: seq<ProcessEntry>, hist: History, sysTotal: U64)
    ensures ListPids(Records(entries, hist, sysTotal)) == Pids(entries)
  {
    var recs := Records(entries, hist, sysTotal);
    forall p | p in Pids(entries)
      ensures p in ListPids(recs)
    {
      var e :| e in entries && e.pid == p;
      var k :| 0 <= k < |entries| && entries[k] == e;
      assert recs[k] in recs;
    }
    forall p | p in ListPids(recs)
      ensures p in Pids(entries)
    {
      var r :| r in recs && r.pid == p;
      var k :| 0 <= k < |recs| && recs[k] == r;
      assert entries[k] in entries;
    }
  }
}

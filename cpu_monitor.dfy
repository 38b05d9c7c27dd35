/**
 * The global CPU sampler (CpuMonitor): keeps the previous idle/kernel/user
 * system counters and turns the deltas to the next reading into a busy
 * percentage. GetSystemTimes is an input of Update: None when it fails.
 */
module Cpu {
  import opened Counters

  /** The busy share of one interval: kernel and user time together are
      the whole interval, idle time is the part of it not spent working.
      All three are 64-bit deltas, so the sum and the difference wrap. */
  function UsagePercent(idle: U64, kernel: U64, user: U64): (r: real)
    ensures r >= 0.0
    ensures Add64(kernel, user) == 0 ==> r == 0.0
    ensures 0 < Add64(kernel, user) && idle <= Add64(kernel, user) ==> r <= 100.0
    ensures 0 < Add64(kernel, user) && idle == Add64(kernel, user) ==> r == 0.0
    ensures 0 < Add64(kernel, user) && idle == 0 ==> r == 100.0
  {
    var total := Add64(kernel, user);
    if total > 0 then
      BusyRatioAtMostOne(Sub64(total, idle), total, idle);
      Sub64(total, idle) as real / total as real * 100.0
    else
      0.0
  }

  lemma BusyRatioAtMostOne(busy: nat, total: nat, idle: nat)
    requires total > 0
    requires idle <= total ==> busy == total - idle
    ensures idle <= total ==> busy as real / total as real <= 1.0
    ensures idle == 0 ==> busy as real / total as real == 1.0
  {
    if idle <= total {
      assert busy as real <= total as real;
    }
    if idle == 0 {
      assert busy as real == total as real;
    }
  }

  /** The usage computed from a previous and a current reading. */
  function UsageBetween(prev: SystemTimes, cur: SystemTimes): real
  {
    UsagePercent(Delta(prev.idle, cur.idle), Delta(prev.kernel, cur.kernel), Delta(prev.user, cur.user))
  }

  /** A pair of readings as the OS produces them: no counter went back,
      the kernel+user delta fits in 64 bits and idle time is part of it. */
  predicate Plausible(prev: SystemTimes, cur: SystemTimes)
  {
    NotBehind(prev.idle, cur.idle) && NotBehind(prev.kernel, cur.kernel) && NotBehind(prev.user, cur.user) &&
    Delta(prev.kernel, cur.kernel) + Delta(prev.user, cur.user) < TwoTo64 &&
    Delta(prev.idle, cur.idle) <= Delta(prev.kernel, cur.kernel) + Delta(prev.user, cur.user)
  }

  /** On plausible readings the wrapping arithmetic is the plain formula
      (total - idle) / total * 100 over the counters' differences, and the
      result is a percentage. */
  lemma PlainUsageFormula(prev: SystemTimes, cur: SystemTimes)
    requires Plausible(prev, cur)
    ensures var idle := FileTimeToInt64(cur.idle) - FileTimeToInt64(prev.idle);
            var total := (FileTimeToInt64(cur.kernel) - FileTimeToInt64(prev.kernel))
                       + (FileTimeToInt64(cur.user) - FileTimeToInt64(prev.user));
            UsageBetween(prev, cur) == if total > 0 then (total - idle) as real / total as real * 100.0 else 0.0
    ensures 0.0 <= UsageBetween(prev, cur) <= 100.0
  {
  }

  /** Readings idle=100, kernel=150, user=50 then idle=110, kernel=170,
      user=60: deltas 10/20/10, usage (30 - 10) / 30 * 100. */
  lemma TwoThirdsScenario()
    ensures UsageBetween(SystemTimes(FileTime(0, 100), FileTime(0, 150), FileTime(0, 50)),
                         SystemTimes(FileTime(0, 110), FileTime(0, 170), FileTime(0, 60)))
            == 200.0 / 3.0
  {
  }

  /** Two identical readings give 0: right after construction, an update
      that sees unchanged counters reports no load rather than a spike. */
  lemma UnchangedReadingIsIdle(t: SystemTimes)
    ensures UsageBetween(t, t) == 0.0
  {
  }

  class CpuMonitor {
    var prevIdleTime: FileTime
    var prevKernelTime: FileTime
    var prevUserTime: FileTime
    var globalUsage: real

    /** A usage is never negative: the busy delta is unsigned. */
    ghost predicate Valid()
      reads this
    {
      globalUsage >= 0.0
    }

    /** The reading the next delta is measured against. */
    function Baseline(): SystemTimes
      reads this
    {
      SystemTimes(prevIdleTime, prevKernelTime, prevUserTime)
    }

    /** Seeds the baseline from one GetSystemTimes reading, usage 0. */
    constructor (boot: SystemTimes)
      ensures Valid()
      ensures Baseline() == boot && globalUsage == 0.0
    {
      prevIdleTime, prevKernelTime, prevUserTime := boot.idle, boot.kernel, boot.user;
      globalUsage := 0.0;
    }

    /** One sampling step. A failed read changes nothing; a successful one
        computes the usage over the interval and always rebases, even when
        the kernel+user delta is 0. */
    method Update(reading: Option<SystemTimes>)
      requires Valid()
      modifies this
      ensures Valid()
      ensures reading.None? ==> unchanged(this)
      ensures reading.Some? ==> Baseline() == reading.value
      ensures reading.Some? ==> globalUsage == UsageBetween(old(Baseline()), reading.value)
      ensures reading.Some? && Plausible(old(Baseline()), reading.value) ==> 0.0 <= globalUsage <= 100.0
    {
      if reading.None? {
        return;
      }
      var now := reading.value;
      var idle := Sub64(FileTimeToInt64(now.idle), FileTimeToInt64(prevIdleTime));
      var kernel := Sub64(FileTimeToInt64(now.kernel), FileTimeToInt64(prevKernelTime));
      var user := Sub64(FileTimeToInt64(now.user), FileTimeToInt64(prevUserTime));
      var totalSystem := Add64(kernel, user);
      if totalSystem > 0 {
        globalUsage := Sub64(totalSystem, idle) as real / totalSystem as real * 100.0;
      } else {
        globalUsage := 0.0;
      }
      if Plausible(old(Baseline()), now) {
        PlainUsageFormula(old(Baseline()), now);
      }
      prevIdleTime := now.idle;
      prevKernelTime := now.kernel;
      prevUserTime := now.user;
    }

    /** The last computed usage; reading it changes nothing. */
    function GetGlobalUsage(): (r: real)
      reads this
      requires Valid()
      ensures r >= 0.0
    {
      globalUsage
    }
  }
}

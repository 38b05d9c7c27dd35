/**
 * The memory sampler (MemoryMonitor): holds one MEMORYSTATUSEX record that
 * every update overwrites with what GlobalMemoryStatusEx reports. Only the
 * fields the monitor reads are modelled.
 */
module Memory {
  import opened Counters

  /** sizeof(MEMORYSTATUSEX): the value dwLength must hold before the call. */
  const MemoryStatusExSize: U32 := 64

  /** The part of MEMORYSTATUSEX the monitor uses. */
  datatype MemoryStatus = MemoryStatus(length: U32, memoryLoad: U32, totalPhys: U64, availPhys: U64)

  /** What GlobalMemoryStatusEx writes into the record. */
  datatype MemoryReading = MemoryReading(memoryLoad: U32, totalPhys: U64, availPhys: U64)

  class MemoryMonitor {
    var memInfo: MemoryStatus

    /** The record's size field is set before the first query. */
    ghost predicate Valid()
      reads this
    {
      memInfo.length == MemoryStatusExSize
    }

    /** Sets the record's size and performs one update, so the getters
        report real figures from the start. */
    constructor (first: MemoryReading)
      ensures Valid()
      ensures GetMemoryUsagePercentage() == first.memoryLoad as real
      ensures GetTotalMemory() == first.totalPhys && GetFreeMemory() == first.availPhys
    {
      memInfo := MemoryStatus(MemoryStatusExSize, 0, 0, 0);
      new;
      Update(first);
    }

    /** Overwrites the whole status with the provider's figures; the
        return value of the call is ignored, so there is no failure path. */
    method Update(reading: MemoryReading)
      requires Valid()
      modifies this
      ensures Valid()
      ensures memInfo == MemoryStatus(old(memInfo.length), reading.memoryLoad, reading.totalPhys, reading.availPhys)
      ensures GetMemoryUsagePercentage() == reading.memoryLoad as real
      ensures GetTotalMemory() == reading.totalPhys && GetFreeMemory() == reading.availPhys
      ensures reading.availPhys <= reading.totalPhys ==> GetUsedMemory() == reading.totalPhys - reading.availPhys
    {
      memInfo := memInfo.(memoryLoad := reading.memoryLoad, totalPhys := reading.totalPhys,
                          availPhys := reading.availPhys);
    }

    /** The provider's load figure as is, not recomputed from used/total;
        it is a percentage whenever the provider's figure is. */
    function GetMemoryUsagePercentage(): (r: real)
      reads this
      ensures r >= 0.0
      ensures memInfo.memoryLoad <= 100 ==> r <= 100.0
      ensures r.Floor == memInfo.memoryLoad
    {
      memInfo.memoryLoad as real
    }

    /** Total physical RAM in bytes: the provider's 64-bit figure, passed
        through without truncation to a 64-bit `size_t`. */
    function GetTotalMemory(): (r: U64)
      reads this
      ensures r == memInfo.totalPhys
    {
      memInfo.totalPhys
    }

    /** Used RAM: total - available, as a 64-bit unsigned difference. Used
        and free always add up to total modulo 2^64, and exactly whenever
        available does not exceed total. */
    function GetUsedMemory(): (r: U64)
      reads this
      ensures (r + GetFreeMemory()) % TwoTo64 == GetTotalMemory()
      ensures memInfo.availPhys <= memInfo.totalPhys ==> r + GetFreeMemory() == GetTotalMemory()
      ensures memInfo.availPhys <= memInfo.totalPhys ==> r <= GetTotalMemory()
    {
      Sub64(memInfo.totalPhys, memInfo.availPhys)
    }

    /** Free RAM: the provider's available figure, passed through, so it
        never exceeds total whenever the provider's figures are consistent. */
    function GetFreeMemory(): (r: U64)
      reads this
      ensures r == memInfo.availPhys
      ensures memInfo.availPhys <= memInfo.totalPhys ==> r <= GetTotalMemory()
    {
      memInfo.availPhys
    }
  }
}

/**
 The statistics blocks of the three backends as objects. Each keeps a ghost log
 of the transfers completed since its last reset, and `Valid()` says outright
 what its six numbers mean in terms of that log.
 */
module Backends {
  import opened Arithmetic
  import opened Averages

  datatype Sample = Sample(size: nat, latency: nat)

  datatype Stats = Stats(transfers: nat, bytes: nat, errors: nat, avg: nat, min: nat, max: nat)

  const ZERO := Stats(0, 0, 0, 0, 0, 0)

  const MAX_TRANSFER: nat := 1024 * 1024

  function Latencies(log: Log<Sample>): Samples {
    Map((x: Sample) => x.latency, log)
  }

  function Sizes(log: Log<Sample>): Samples {
    Map((x: Sample) => x.size, log)
  }

  function MinimumOr(none: nat, xs: Samples): nat {
    if xs.Empty? then none else Least(xs)
  }

  // ------------------------------------------------------------------
  // What each backend reports after a given log

  function KernelView(log: Log<Sample>, failures: nat): Stats {
    var xs := Latencies(log);
    Stats(Length(log), Sum(Sizes(log)), failures, KernelAvg(xs), SentinelMin(xs), Greatest(xs))
  }

  function LinuxView(log: Log<Sample>): Stats {
    var xs := Latencies(log);
    Stats(Length(log), Sum(Sizes(log)), 0, LinuxAvg(xs), MinimumOr(0, xs), Greatest(xs))
  }

  function WindowsView(log: Log<Sample>): Stats {
    var xs := Latencies(log);
    Stats(Length(log), Sum(Sizes(log)), 0, WindowsAvg(xs), MinimumOr(U64 - 1, xs), Greatest(xs))
  }

  /** The part of a statistics block that does not depend on the order of arrival. */
  predicate SameTotals(a: Stats, b: Stats) {
    a.transfers == b.transfers && a.bytes == b.bytes && a.min == b.min && a.max == b.max
  }

  lemma LengthOfLatencies(log: Log<Sample>)
    ensures Length(Latencies(log)) == Length(log)
  {
    if log.Snoc? {
      LengthOfLatencies(log.earlier);
    }
  }

  /** On positive latencies the three backends agree despite their different sentinels. */
  lemma BackendsAgree(log: Log<Sample>, failures: nat)
    requires log.Snoc? && 0 !in Bag(Latencies(log))
    ensures SameTotals(KernelView(log, failures), LinuxView(log))
    ensures SameTotals(LinuxView(log), WindowsView(log))
  {
    SentinelMinIsExactIff(Latencies(log));
  }

  /** Every interleaving of the same completed transfers reports the same totals. */
  lemma InterleavingsAgree(g: Log<Sample>, h: Log<Sample>, failures: nat)
    requires Bag(g) == Bag(h)
    ensures SameTotals(LinuxView(g), LinuxView(h))
    ensures SameTotals(WindowsView(g), WindowsView(h))
    ensures 0 !in Bag(Latencies(g)) ==> SameTotals(KernelView(g, failures), KernelView(h, failures))
  {
    BagFixesMap((x: Sample) => x.latency, g, h);
    BagFixesMap((x: Sample) => x.size, g, h);
    var xs, ys := Latencies(g), Latencies(h);
    OrderKeepsExtremes(xs, ys);
    BagFixesSum(Sizes(g), Sizes(h));
    LengthOfLatencies(g);
    LengthOfLatencies(h);
    assert xs.Empty? <==> ys.Empty?;
    if 0 !in Bag(xs) && xs.Snoc? {
      SentinelMinIsExactIff(xs);
      SentinelMinIsExactIff(ys);
    }
  }

  // ------------------------------------------------------------------
  // Linux simulation

  datatype Error = Success | ErrorDevice | ErrorParam | ErrorMemory | ErrorTimeout

  class LinuxDevice {
    var active: bool
    var stats: Stats
    ghost var log: Log<Sample>

    ghost predicate Valid()
      reads this
    {
      stats == LinuxView(log)
    }

    constructor ()
      ensures Valid() && !active && log == Empty
    {
      active, stats, log := false, ZERO, Empty;
    }

    /** The first open of a device clears its statistics; later opens, even after a close, keep them. */
    method Open()
      requires Valid()
      modifies this
      ensures Valid() && active
      ensures log == if old(active) then old(log) else Empty
    {
      if !active {
        active := true;
        stats := ZERO;
        log := Empty;
      }
    }

    method Transfer(bufferOk: bool, size: nat, latency: nat) returns (err: Error)
      requires Valid() && latency < U64
      modifies this
      ensures Valid() && active == old(active)
      ensures err == if bufferOk && size != 0 then Success else ErrorParam
      ensures log == if err.Success? then Snoc(old(log), Sample(size, latency)) else old(log)
    {
      if !bufferOk || size == 0 {
        return ErrorParam;
      }
      var transfers := stats.transfers + 1;
      var bytes := stats.bytes + size;
      if transfers == 1 {
        stats := Stats(transfers, bytes, stats.errors, latency, latency, latency);
      } else {
        var avg := Halve(stats.avg, latency);
        var min := if latency < stats.min then latency else stats.min;
        var max := if latency > stats.max then latency else stats.max;
        stats := Stats(transfers, bytes, stats.errors, avg, min, max);
      }
      log := Snoc(log, Sample(size, latency));
      return Success;
    }

    method ResetStats()
      requires Valid()
      modifies this
      ensures Valid() && log == Empty && active == old(active)
    {
      stats := ZERO;
      log := Empty;
    }
  }

  // ------------------------------------------------------------------
  // Windows simulation

  class WindowsDevice {
    var active: bool
    var stats: Stats
    ghost var log: Log<Sample>

    ghost predicate Valid()
      reads this
    {
      stats == WindowsView(log)
    }

    constructor ()
      ensures Valid() && !active && log == Empty
    {
      active := false;
      stats := ZERO.(min := U64 - 1);
      log := Empty;
    }

    /** Opening a free device keeps its statistics from earlier opens; `memory` is the handle's allocation. */
    method Open(memory: bool) returns (err: Error)
      requires Valid()
      modifies this`active
      ensures Valid()
      ensures err == if old(active) then ErrorDevice else if !memory then ErrorMemory else Success
      ensures active <==> old(active) || err.Success?
    {
      if active {
        return ErrorDevice;
      }
      active := true;
      if !memory {
        active := false;
        return ErrorMemory;
      }
      return Success;
    }

    method Close()
      requires Valid()
      modifies this`active
      ensures Valid() && !active
    {
      active := false;
    }

    /** `locked` says whether the device mutex was obtained before its timeout. */
    method Transfer(bufferOk: bool, size: nat, latency: nat, locked: bool) returns (err: Error)
      requires Valid() && latency < U64
      modifies this
      ensures Valid() && active == old(active)
      ensures err == if !bufferOk || size == 0 || size > MAX_TRANSFER then ErrorParam
                     else if !active then ErrorDevice
                     else if !locked then ErrorTimeout
                     else Success
      ensures log == if err.Success? then Snoc(old(log), Sample(size, latency)) else old(log)
    {
      if !bufferOk || size == 0 || size > 1024 * 1024 {
        return ErrorParam;
      }
      if !active {
        return ErrorDevice;
      }
      if !locked {
        return ErrorTimeout;
      }
      stats := stats.(transfers := stats.transfers + 1, bytes := stats.bytes + size);
      if latency < stats.min {
        stats := stats.(min := latency);
      }
      if latency > stats.max {
        stats := stats.(max := latency);
      }
      if stats.transfers == 1 {
        stats := stats.(avg := latency);
      } else {
        stats := stats.(avg := MeanWith(stats.avg, stats.transfers - 1, latency));
      }
      LengthOfLatencies(log);
      log := Snoc(log, Sample(size, latency));
      return Success;
    }

    method ResetStats(locked: bool) returns (err: Error)
      requires Valid()
      modifies this
      ensures Valid() && active == old(active)
      ensures err == if !active then ErrorDevice else if !locked then ErrorTimeout else Success
      ensures log == if err.Success? then Empty else old(log)
    {
      if !active {
        return ErrorDevice;
      }
      if !locked {
        return ErrorTimeout;
      }
      stats := ZERO.(min := U64 - 1);
      log := Empty;
      return Success;
    }
  }

  // ------------------------------------------------------------------
  // Kernel driver: DMA transfers and the ioctl interface

  datatype Errno = Ok | EINVAL | ENOMEM | EFAULT | ENOTTY | ERESTARTSYS

  datatype Request = Request(bufferOk: bool, size: nat, direction: nat)

  /** How the calls into the rest of the kernel turn out during one DMA transfer. */
  datatype Dma = Dma(buffered: bool, copied: bool, latency: nat)

  datatype Ioctl =
    | Transfer(request: Request, copiedIn: bool, dma: Dma, copiedOut: bool)
    | GetStats(copiedOut: bool)
    | ResetStats
    | Other

  /** What an ioctl hands back besides its result. */
  datatype Report = Silent | Latency(ns: nat) | Block(stats: Stats)

  predicate IsValid(r: Request) {
    r.bufferOk && 1 <= r.size <= MAX_TRANSFER && r.direction <= 1
  }

  /** One entry per call of the DMA routine. */
  datatype Outcome = Done(sample: Sample) | Failed

  function Successes(calls: Log<Outcome>): Log<Sample> {
    if calls.Empty? then Empty
    else if calls.latest.Done? then Snoc(Successes(calls.earlier), calls.latest.sample)
    else Successes(calls.earlier)
  }

  function Failures(calls: Log<Outcome>): nat {
    if calls.Empty? then 0 else Failures(calls.earlier) + if calls.latest.Failed? then 1 else 0
  }

  /** Every transfer that was counted had a legal size and a 64-bit latency. */
  predicate Legal(calls: Log<Outcome>) {
    calls.Snoc? ==>
      && Legal(calls.earlier)
      && (calls.latest.Done? ==> 1 <= calls.latest.sample.size <= MAX_TRANSFER && calls.latest.sample.latency < U64)
  }

  class KernelDevice {
    var stats: Stats
    /** The calls of the DMA routine since the statistics were last reset. */
    ghost var calls: Log<Outcome>

    ghost predicate Valid()
      reads this
    {
      Legal(calls) && stats == KernelView(Successes(calls), Failures(calls))
    }

    constructor ()
      ensures Valid() && calls == Empty
    {
      stats, calls := ZERO, Empty;
    }

    method UpdateTransferStats(size: nat, latency: nat, success: bool)
      requires Valid()
      requires success ==> 1 <= size <= MAX_TRANSFER && latency < U64
      modifies this
      ensures Valid()
      ensures calls == Snoc(old(calls), if success then Done(Sample(size, latency)) else Failed)
    {
      if success {
        stats := stats.(transfers := stats.transfers + 1, bytes := stats.bytes + size);
        if stats.min == 0 || latency < stats.min {
          stats := stats.(min := latency);
        }
        if latency > stats.max {
          stats := stats.(max := latency);
        }
        stats := stats.(avg := Halve(stats.avg, latency));
      } else {
        stats := stats.(errors := stats.errors + 1);
      }
      calls := Snoc(calls, if success then Done(Sample(size, latency)) else Failed);
    }

    method DmaTransfer(r: Request, dma: Dma) returns (err: Errno)
      requires Valid() && dma.latency < U64
      modifies this
      ensures Valid()
      ensures err == if !IsValid(r) then EINVAL
                     else if !dma.buffered then ENOMEM
                     else if !dma.copied then EFAULT
                     else Ok
      ensures calls == Snoc(old(calls), if err.Ok? then Done(Sample(r.size, dma.latency)) else Failed)
    {
      err := ValidateRequest(r);
      if err.Ok? && !dma.buffered {
        err := ENOMEM;
      }
      if err.Ok? && !dma.copied {
        err := EFAULT;
      }
      UpdateTransferStats(r.size, dma.latency, err.Ok?);
    }

    /** `interrupted` is a signal while waiting for the device mutex. */
    method CharIoctl(magicOk: bool, interrupted: bool, cmd: Ioctl) returns (err: Errno, report: Report)
      requires Valid()
      requires cmd.Transfer? ==> cmd.dma.latency < U64
      modifies this
      ensures Valid()
      ensures var reached := magicOk && !interrupted;
              calls == if reached && cmd.Transfer? && cmd.copiedIn then
                         Snoc(old(calls), if IsValid(cmd.request) && cmd.dma.buffered && cmd.dma.copied
                                          then Done(Sample(cmd.request.size, cmd.dma.latency)) else Failed)
                       else if reached && cmd.ResetStats? then Empty
                       else old(calls)
      ensures report == if err.Ok? && cmd.Transfer? then Latency(cmd.dma.latency)
                        else if err.Ok? && cmd.GetStats? then Block(stats)
                        else Silent
      ensures err == if !magicOk then EINVAL
                     else if interrupted then ERESTARTSYS
                     else
                       match cmd
                       case Transfer(r, copiedIn, dma, copiedOut) =>
                         if !copiedIn then EFAULT
                         else if !IsValid(r) then EINVAL
                         else if !dma.buffered then ENOMEM
                         else if !dma.copied || !copiedOut then EFAULT
                         else Ok
                       case GetStats(copiedOut) => if copiedOut then Ok else EFAULT
                       case ResetStats => Ok
                       case Other => ENOTTY
    {
      if !magicOk {
        return EINVAL, Silent;
      }
      if interrupted {
        return ERESTARTSYS, Silent;
      }
      err, report := Ok, Silent;
      match cmd
      case Transfer(request, copiedIn, dma, copiedOut) =>
        if !copiedIn {
          err := EFAULT;
        } else {
          err := DmaTransfer(request, dma);
          if err.Ok? {
            if copiedOut {
              report := Latency(dma.latency);
            } else {
              err := EFAULT;
            }
          }
        }
      case GetStats(copiedOut) =>
        if copiedOut {
          report := Block(stats);
        } else {
          err := EFAULT;
        }
      case ResetStats =>
        stats := ZERO;
        calls := Empty;
      case Other =>
        err := ENOTTY;
    }
  }

  method ValidateRequest(r: Request) returns (err: Errno)
    ensures err == if IsValid(r) then Ok else EINVAL
  {
    if !r.bufferOk {
      return EINVAL;
    }
    if r.size < 1 || r.size > 1024 * 1024 {
      return EINVAL;
    }
    if r.direction > 1 {
      return EINVAL;
    }
    return Ok;
  }

  /** Each call of the DMA routine is counted once, and sizes keep the byte total in proportion. */
  lemma {:induction false} CallsAreCounted(calls: Log<Outcome>)
    requires Legal(calls)
    ensures var s := KernelView(Successes(calls), Failures(calls));
            && s.transfers + s.errors == Length(calls)
            && s.transfers <= s.bytes <= MAX_TRANSFER * s.transfers
  {
    if calls.Snoc? {
      CallsAreCounted(calls.earlier);
    }
  }

  /** What /proc reports as the average transfer size is a legal transfer size. */
  lemma AverageSizeIsLegal(calls: Log<Outcome>)
    requires Legal(calls)
    ensures var s := KernelView(Successes(calls), Failures(calls));
            s.transfers > 0 ==> 1 <= Floor(s.bytes, s.transfers) <= MAX_TRANSFER
  {
    CallsAreCounted(calls);
    var s := KernelView(Successes(calls), Failures(calls));
    if s.transfers > 0 {
      FloorWithin(s.bytes, s.transfers, 1, MAX_TRANSFER);
    }
  }

  /** The jitter figure max - min of /proc never underflows. */
  lemma {:induction false} JitterIsNatural(calls: Log<Outcome>)
    requires Legal(calls)
    ensures var s := KernelView(Successes(calls), Failures(calls));
            s.min <= s.max
  {
    SentinelMinForgets(Latencies(Successes(calls)));
  }
}

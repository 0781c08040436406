/**
 The performance registers: what software reads there after any calls of the DMA
 routine, whatever it stored there itself.
 */
module Performance {
  import opened Averages
  import B = Backends
  import R = Registers
  import opened Wrappers

  /** The value that is left of `n` in a 32-bit word. */
  function Word(n: nat): bv32 {
    (n % 0x1_0000_0000) as bv32
  }

  lemma LatencyReads(r: R.BarRegs, avg: nat, transfers: nat)
    ensures R.Read(r, 12, avg, transfers) == Word(avg / 1000)
  {
  }

  lemma CountReads(r: R.BarRegs, avg: nat, transfers: nat)
    ensures R.Read(r, 13, avg, transfers) == Word(transfers)
  {
  }

  lemma CountReadsAs(r: R.BarRegs, avg: nat, transfers: nat, n: nat)
    requires transfers == n
    ensures R.Read(r, 13, avg, transfers) == Word(n)
  {
    CountReads(r, avg, transfers);
  }

  /** A successful transfer also stores both numbers; a failed one does not touch them. */
  lemma TransferStoresBoth(r: R.BarRegs, latency: nat, transfers: nat)
    ensures var r' := R.UpdateDma(r, true, Some(latency), transfers);
            r'.words[12] == Word(latency / 1000) && r'.words[13] == Word(transfers)
    ensures var r' := R.UpdateDma(r, false, Some(latency), transfers);
            r'.words[12] == r.words[12] && r'.words[13] == r.words[13]
  {
    R.DmaWordAt(r.words, true, 12);
    R.DmaWordAt(r.words, false, 12);
    R.DmaWordAt(r.words, false, 13);
    PerfWordsHold(R.DmaWords(r.words, true), latency, transfers);
  }

  lemma PerfWordsHold(ws: seq<bv32>, latency: nat, transfers: nat)
    requires |ws| == R.WORDS
    ensures R.PerfWords(ws, latency, transfers)[12] == R.Low32(latency / 1000)
    ensures R.PerfWords(ws, latency, transfers)[13] == R.Low32(transfers)
  {
    R.TwoUpdates(ws, 12, R.Low32(latency / 1000), 13, R.Low32(transfers), 12);
    R.TwoUpdates(ws, 12, R.Low32(latency / 1000), 13, R.Low32(transfers), 13);
  }

  lemma StatsFollowCalls(calls: Log<B.Outcome>)
    requires B.Legal(calls)
    ensures var s, xs := B.KernelView(B.Successes(calls), B.Failures(calls)), B.Latencies(B.Successes(calls));
            && s.transfers + B.Failures(calls) == Length(calls)
            && (KernelNeverWraps(xs) ==> s.avg == KernelClosed(xs))
  {
    B.CallsAreCounted(calls);
    LatenciesFit(calls);
    KernelExactIff(B.Latencies(B.Successes(calls)));
  }

  lemma {:induction false} LatenciesFit(calls: Log<B.Outcome>)
    requires B.Legal(calls)
    ensures Below(B.Latencies(B.Successes(calls)), 0x1_0000_0000_0000_0000)
  {
    if calls.Snoc? {
      LatenciesFit(calls.earlier);
    }
  }

  /**
   After any register operations, and any calls of the DMA routine since the last
   reset, word 12 reads the average latency in microseconds: one floor of the
   weighted latencies as long as no sum wraps.
   */
  lemma LatencyFollowsCalls(ops: seq<R.Op>, calls: Log<B.Outcome>)
    requires B.Legal(calls) && KernelNeverWraps(B.Latencies(B.Successes(calls)))
    ensures var s := B.KernelView(B.Successes(calls), B.Failures(calls));
            R.Read(R.After(ops), 12, s.avg, s.transfers) == Word(KernelClosed(B.Latencies(B.Successes(calls))) / 1000)
  {
    var s := B.KernelView(B.Successes(calls), B.Failures(calls));
    StatsFollowCalls(calls);
    LatencyReads(R.After(ops), s.avg, s.transfers);
  }

  /** Word 13 reads how many of the calls did not fail. */
  lemma CountFollowsCalls(ops: seq<R.Op>, calls: Log<B.Outcome>)
    requires B.Legal(calls)
    ensures var s := B.KernelView(B.Successes(calls), B.Failures(calls));
            && B.Failures(calls) <= Length(calls)
            && R.Read(R.After(ops), 13, s.avg, s.transfers) == Word(Length(calls) - B.Failures(calls))
  {
    var s := B.KernelView(B.Successes(calls), B.Failures(calls));
    B.CallsAreCounted(calls);
    CountReadsAs(R.After(ops), s.avg, s.transfers, Length(calls) - B.Failures(calls));
  }
}

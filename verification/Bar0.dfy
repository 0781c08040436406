/**
 BAR0 as it is stored: 4096 bytes, accessed by little-endian 32-bit loads and
 stores at 4-byte aligned offsets, beside the flags the device keeps outside it.
 Each operation is proved against the register map of `Registers`.
 */
module Bar0 {
  import opened R = Registers
  import opened Wrappers

  const SIZE: nat := 0x1000

  // ------------------------------------------------------------------
  // Little-endian words

  function Byte0(v: bv32): bv8 { (v & 0xFF) as bv8 }
  function Byte1(v: bv32): bv8 { ((v >> 8) & 0xFF) as bv8 }
  function Byte2(v: bv32): bv8 { ((v >> 16) & 0xFF) as bv8 }
  function Byte3(v: bv32): bv8 { ((v >> 24) & 0xFF) as bv8 }

  function Join(b0: bv8, b1: bv8, b2: bv8, b3: bv8): bv32 {
    (b0 as bv32) | ((b1 as bv32) << 8) | ((b2 as bv32) << 16) | ((b3 as bv32) << 24)
  }

  lemma JoinOfBytes(v: bv32)
    ensures Join(Byte0(v), Byte1(v), Byte2(v), Byte3(v)) == v
  {
  }

  /** The low byte comes first. */
  lemma LowByteFirst()
    ensures Byte0(0x0403_0201) == 1 && Byte1(0x0403_0201) == 2 && Byte2(0x0403_0201) == 3 && Byte3(0x0403_0201) == 4
    ensures Join(1, 2, 3, 4) == 0x0403_0201
  {
  }

  function WordIn(b: seq<bv8>, k: nat): bv32
    requires 4 * k + 4 <= |b|
  {
    Join(b[4 * k], b[4 * k + 1], b[4 * k + 2], b[4 * k + 3])
  }

  function Words(b: seq<bv8>): (w: seq<bv32>)
    requires |b| == SIZE
    ensures |w| == R.WORDS
  {
    seq(R.WORDS, (k: nat) requires k < R.WORDS => WordIn(b, k))
  }

  /** The bytes with word `k` replaced. */
  function Put(b: seq<bv8>, k: nat, v: bv32): seq<bv8>
    requires |b| == SIZE && k < R.WORDS
  {
    b[4 * k := Byte0(v)][4 * k + 1 := Byte1(v)][4 * k + 2 := Byte2(v)][4 * k + 3 := Byte3(v)]
  }

  /** A store changes its own register to exactly the stored value, and no other. */
  lemma StoreIsWordUpdate(b: seq<bv8>, k: nat, v: bv32)
    requires |b| == SIZE && k < R.WORDS
    ensures Words(Put(b, k, v)) == Words(b)[k := v]
  {
    JoinOfBytes(v);
    var b' := Put(b, k, v);
    forall j: nat | j < R.WORDS
      ensures WordIn(b', j) == if j == k then v else WordIn(b, j)
    {
      StoreAt(b, k, v, j);
    }
    assert forall j :: 0 <= j < R.WORDS ==> Words(b')[j] == WordIn(b', j) && Words(b)[j] == WordIn(b, j);
  }

  lemma StoreAt(b: seq<bv8>, k: nat, v: bv32, j: nat)
    requires |b| == SIZE && k < R.WORDS && j < R.WORDS
    ensures WordIn(Put(b, k, v), j) == if j == k then v else WordIn(b, j)
  {
    var b' := Put(b, k, v);
    if j == k {
      assert b'[4 * k] == Byte0(v) && b'[4 * k + 1] == Byte1(v)
             && b'[4 * k + 2] == Byte2(v) && b'[4 * k + 3] == Byte3(v);
      JoinOfBytes(v);
    } else {
      assert b'[4 * j] == b[4 * j] && b'[4 * j + 1] == b[4 * j + 1];
      assert b'[4 * j + 2] == b[4 * j + 2] && b'[4 * j + 3] == b[4 * j + 3];
    }
  }

  // ------------------------------------------------------------------
  // The device

  class RegisterFile {
    var bar: array?<bv8>
    var pending: bool
    var dmaActive: bool
    var simulateErrors: bool
    var rate: bv32

    /** Before init, and after cleanup, there is no BAR. */
    ghost predicate Valid()
      reads this
    {
      bar != null ==> bar.Length == SIZE
    }

    ghost function View(): R.BarRegs
      reads this, bar
      requires Valid() && bar != null
    {
      R.Regs(Words(bar[..]), pending, dmaActive, simulateErrors, rate)
    }

    constructor ()
      ensures Valid() && bar == null && !pending && !dmaActive && !simulateErrors && rate == 0
    {
      bar, pending, dmaActive, simulateErrors, rate := null, false, false, false, 0;
    }

    method Readl(k: nat) returns (v: bv32)
      requires Valid() && bar != null && k < R.WORDS
      ensures v == View().words[k]
    {
      v := Join(bar[4 * k], bar[4 * k + 1], bar[4 * k + 2], bar[4 * k + 3]);
      assert v == WordIn(bar[..], k);
    }

    method Writel(k: nat, v: bv32)
      requires Valid() && bar != null && k < R.WORDS
      modifies bar
      ensures View() == old(View()).(words := old(View()).words[k := v])
    {
      StoreIsWordUpdate(bar[..], k, v);
      bar[4 * k] := Byte0(v);
      bar[4 * k + 1] := Byte1(v);
      bar[4 * k + 2] := Byte2(v);
      bar[4 * k + 3] := Byte3(v);
      assert bar[..] == Put(old(bar[..]), k, v);
    }

    /** Setting up the BAR starts its registers afresh and keeps the flags; `memory` is the allocation. */
    method Init(memory: bool) returns (ok: bool)
      requires Valid()
      modifies this
      ensures Valid() && ok == memory
      ensures if ok then bar != null && fresh(bar) else bar == null
      ensures pending == old(pending) && dmaActive == old(dmaActive)
      ensures simulateErrors == old(simulateErrors) && rate == old(rate)
      ensures ok ==> View().words == R.Initial().words
    {
      if !memory {
        bar := null;
        return false;
      }
      bar := new bv8[SIZE](_ => 0);
      ZeroWords(bar[..]);
      WriteDefaults();
      return true;
    }

    method WriteDefaults()
      requires Valid() && bar != null && forall k :: 0 <= k < R.WORDS ==> View().words[k] == 0
      modifies bar
      ensures View() == old(View()).(words := R.Initial().words)
    {
      Writel(R.DEVICE_ID, 0x1234_ABCD);
      Writel(R.STATUS, R.DEVICE_READY);
      Writel(R.CONTROL, R.DEVICE_ENABLE);
      Writel(R.DMA_CONTROL, 0);
      Writel(R.IRQ_ENABLE, R.DMA_COMPLETE | R.DMA_ERROR);
    }

    method Read32(offset: nat, avgLatency: nat, transfers: nat) returns (v: bv32)
      requires Valid() && offset % 4 == 0
      ensures v == if bar == null || offset >= 0x1000 then 0xFFFF_FFFF
                   else R.Read(View(), offset / 4, avgLatency, transfers)
    {
      if bar == null || offset >= SIZE {
        return R.ALL_ONES;
      }
      var k := offset / 4;
      v := Readl(k);
      if k == R.STATUS {
        v := R.StatusView(v, dmaActive, pending);
      } else if k == R.PERF_LATENCY {
        v := R.Low32(avgLatency / 1000);
      } else if k == R.PERF_COUNT {
        v := R.Low32(transfers);
      }
    }

    method Write32(offset: nat, value: bv32)
      requires Valid() && offset % 4 == 0
      modifies this, bar
      ensures Valid() && bar == old(bar)
      ensures bar != null ==> View() == R.Apply(old(View()), R.Store(offset / 4, value))
      ensures bar == null ==> pending == old(pending) && dmaActive == old(dmaActive)
      ensures bar == null ==> simulateErrors == old(simulateErrors) && rate == old(rate)
    {
      if bar == null || offset >= SIZE {
        return;
      }
      var k := offset / 4;
      if k == R.CONTROL {
        WriteControl(value);
      } else if k == R.IRQ_STATUS {
        ClearInterrupts(value);
      } else if k == R.ERROR_INJECT {
        SetInjection(value);
      } else {
        Writel(k, value);
      }
    }

    /** The reset bit stops a running DMA and is not stored. */
    method WriteControl(value: bv32)
      requires Valid() && bar != null
      modifies this`dmaActive, bar
      ensures View() == R.Write(old(View()), R.CONTROL, value)
    {
      var v := value;
      if v & R.DMA_RESET != 0 {
        dmaActive := false;
        v := v & !R.DMA_RESET;
      }
      ResetIsNoOp(value);
      Writel(R.CONTROL, v);
    }

    /** Storing to the interrupt status clears the bits that are stored. */
    method ClearInterrupts(value: bv32)
      requires Valid() && bar != null
      modifies this`pending, bar
      ensures View() == R.Write(old(View()), R.IRQ_STATUS, value)
    {
      var current := Readl(R.IRQ_STATUS);
      var left := R.Stored(R.IRQ_STATUS, current, value);
      Writel(R.IRQ_STATUS, left);
      if left == 0 {
        pending := false;
      }
    }

    /** A non-zero low byte switches error injection on and is its rate; zero switches it off. */
    method SetInjection(value: bv32)
      requires Valid() && bar != null
      modifies this`rate, this`simulateErrors, bar
      ensures View() == R.Write(old(View()), R.ERROR_INJECT, value)
    {
      if value & 0xFF != 0 {
        rate := value & 0xFF;
        simulateErrors := true;
      } else {
        simulateErrors := false;
      }
      Writel(R.ERROR_INJECT, value);
    }

    method UpdateDma(success: bool, latency: Option<nat>, transfers: nat)
      requires Valid()
      modifies this`pending, bar
      ensures Valid()
      ensures bar != null ==> View() == R.Apply(old(View()), R.Dma(success, latency, transfers))
      ensures bar == null ==> pending == old(pending)
    {
      if bar == null {
        return;
      }
      RecordTransfer(success, latency, transfers);
      pending := true;
    }

    method RecordTransfer(success: bool, latency: Option<nat>, transfers: nat)
      requires Valid() && bar != null
      modifies bar
      ensures View() == old(View()).(words := R.TransferWords(old(View()).words, success, latency, transfers))
    {
      RecordOutcome(success);
      if success && latency.Some? {
        RecordPerformance(latency.value, transfers);
      }
    }

    method RecordOutcome(success: bool)
      requires Valid() && bar != null
      modifies bar
      ensures View() == old(View()).(words := R.DmaWords(old(View()).words, success))
    {
      var status := Readl(R.STATUS);
      Writel(R.STATUS, R.DmaStatus(status, success));
      var irq := Readl(R.IRQ_STATUS);
      Writel(R.IRQ_STATUS, R.DmaIrq(irq, success));
    }

    method RecordPerformance(latency: nat, transfers: nat)
      requires Valid() && bar != null
      modifies bar
      ensures View() == old(View()).(words := R.PerfWords(old(View()).words, latency, transfers))
    {
      Writel(R.PERF_LATENCY, R.Low32(latency / 1000));
      Writel(R.PERF_COUNT, R.Low32(transfers));
    }

    method Cleanup()
      requires Valid()
      modifies this`bar
      ensures Valid() && bar == null
    {
      bar := null;
    }

    /** Cleaning up and setting up again is what the register map calls a restart. */
    method Restart(memory: bool) returns (ok: bool)
      requires Valid() && bar != null
      modifies this
      ensures Valid() && ok == memory && (ok <==> bar != null)
      ensures ok ==> View() == R.Apply(old(View()), R.Restart)
    {
      Cleanup();
      ok := Init(memory);
    }
  }

  lemma ZeroWords(b: seq<bv8>)
    requires |b| == SIZE && forall i :: 0 <= i < |b| ==> b[i] == 0
    ensures forall k :: 0 <= k < R.WORDS ==> Words(b)[k] == 0
  {
    assert Join(0, 0, 0, 0) == 0;
  }

  lemma ResetIsNoOp(v: bv32)
    ensures v & R.DMA_RESET == 0 ==> v & !R.DMA_RESET == v
  {
  }
}

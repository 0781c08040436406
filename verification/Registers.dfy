/**
 BAR0 as a map of 32-bit registers: what aligned reads, aligned writes, DMA
 updates and setting it up again mean, and what holds over every run of them.
 Registers are numbered by word, that is by byte offset divided by four.
 */
module Registers {
  import opened Sequences
  import opened Wrappers

  const WORDS: nat := 1024

  const DEVICE_ID: nat := 0  // offset 0x000
  const STATUS: nat := 1  // offset 0x004
  const CONTROL: nat := 2  // offset 0x008
  const DMA_CONTROL: nat := 7  // offset 0x01C
  const IRQ_STATUS: nat := 8  // offset 0x020
  const IRQ_ENABLE: nat := 9  // offset 0x024
  const PERF_LATENCY: nat := 12  // offset 0x030
  const PERF_COUNT: nat := 13  // offset 0x034
  const ERROR_INJECT: nat := 17  // offset 0x044

  const DEVICE_READY: bv32 := 1
  const DMA_BUSY: bv32 := 2
  const STATUS_ERROR: bv32 := 4
  const INTERRUPT_PENDING: bv32 := 8

  const DEVICE_ENABLE: bv32 := 1
  const DMA_RESET: bv32 := 4

  const DMA_COMPLETE: bv32 := 1
  const DMA_ERROR: bv32 := 2

  const ALL_ONES: bv32 := 0xFFFF_FFFF

  datatype Regs = Regs(words: seq<bv32>, pending: bool, dmaActive: bool, simulateErrors: bool, rate: bv32)

  type BarRegs = r: Regs | |r.words| == WORDS witness Regs(seq(WORDS, _ => 0), false, false, false, 0)

  function InitialWord(k: nat): bv32 {
    if k == DEVICE_ID then 0x1234_ABCD
    else if k == STATUS then DEVICE_READY
    else if k == CONTROL then DEVICE_ENABLE
    else if k == IRQ_ENABLE then DMA_COMPLETE | DMA_ERROR
    else 0
  }

  /** A fresh device right after its BAR was set up. */
  function Initial(): BarRegs {
    Regs(seq(WORDS, (k: nat) => InitialWord(k)), false, false, false, 0)
  }

  function Low32(n: nat): bv32 {
    (n % 0x1_0000_0000) as bv32
  }

  /** The stored status with its two dynamic bits replaced. */
  function StatusView(w: bv32, busy: bool, pending: bool): bv32 {
    var v := w & !(DMA_BUSY | INTERRUPT_PENDING);
    var v := if busy then v | DMA_BUSY else v;
    if pending then v | INTERRUPT_PENDING else v
  }

  /** What a read of word `k` returns; the performance registers come from the statistics. */
  function Read(r: BarRegs, k: nat, avgLatency: nat, transfers: nat): bv32
    requires k < WORDS
  {
    if k == STATUS then
      StatusView(r.words[k], r.dmaActive, r.pending)
    else if k == PERF_LATENCY then Low32(avgLatency / 1000)
    else if k == PERF_COUNT then Low32(transfers)
    else r.words[k]
  }

  /** What is kept of a value stored to word `k` that held `w`. */
  function Stored(k: nat, w: bv32, v: bv32): bv32 {
    if k == CONTROL then v & !DMA_RESET       // self-clearing bit
    else if k == IRQ_STATUS then w & !v       // write one to clear
    else v
  }

  function Write(r: BarRegs, k: nat, v: bv32): BarRegs
    requires k < WORDS
  {
    var left := Stored(k, r.words[k], v);
    Regs(r.words[k := left],
         r.pending && !(k == IRQ_STATUS && left == 0),
         r.dmaActive && !(k == CONTROL && v & DMA_RESET != 0),
         if k == ERROR_INJECT then v & 0xFF != 0 else r.simulateErrors,
         if k == ERROR_INJECT && v & 0xFF != 0 then v & 0xFF else r.rate)
  }

  /** The registers after a DMA transfer; `latency` is that of the request, when there is one. */
  function UpdateDma(r: BarRegs, success: bool, latency: Option<nat>, transfers: nat): BarRegs {
    r.(words := TransferWords(r.words, success, latency, transfers), pending := true)
  }

  function TransferWords(words: seq<bv32>, success: bool, latency: Option<nat>, transfers: nat): (r: seq<bv32>)
    requires |words| == WORDS
    ensures |r| == WORDS
  {
    var words := DmaWords(words, success);
    if success && latency.Some? then PerfWords(words, latency.value, transfers) else words
  }

  function DmaWords(words: seq<bv32>, success: bool): seq<bv32>
    requires |words| == WORDS
  {
    words[STATUS := DmaStatus(words[STATUS], success)][IRQ_STATUS := DmaIrq(words[IRQ_STATUS], success)]
  }

  function PerfWords(words: seq<bv32>, latency: nat, transfers: nat): seq<bv32>
    requires |words| == WORDS
  {
    words[PERF_LATENCY := Low32(latency / 1000)][PERF_COUNT := Low32(transfers)]
  }

  function DmaStatus(w: bv32, success: bool): bv32 {
    if success then w & !DMA_BUSY else (w & !DMA_BUSY) | STATUS_ERROR
  }

  function DmaIrq(w: bv32, success: bool): bv32 {
    if success then w | DMA_COMPLETE else w | DMA_ERROR
  }

  // ------------------------------------------------------------------
  // Runs

  datatype Op =
    | Store(reg: nat, value: bv32)
    | Dma(success: bool, latency: Option<nat>, transfers: nat)
    | Restart

  /** Stores beyond BAR0 are ignored. Restarting (cleanup, then init) sets up BAR0 again and leaves the flags. */
  function Apply(r: BarRegs, op: Op): BarRegs {
    match op
    case Store(k, v) => if k < WORDS then Write(r, k, v) else r
    case Dma(success, latency, transfers) => UpdateDma(r, success, latency, transfers)
    case Restart => r.(words := Initial().words)
  }

  function After(ops: seq<Op>): BarRegs {
    if ops == [] then Initial() else Apply(After(Front(ops)), Last(ops))
  }

  /** The last value stored to register `k` since BAR0 was set up, or what it started with. */
  function LastStored(ops: seq<Op>, k: nat): bv32
    requires k < WORDS
  {
    if ops == [] then InitialWord(k) else NextStored(k, LastStored(Front(ops), k), Last(ops))
  }

  function NextStored(k: nat, v: bv32, op: Op): bv32 {
    match op
    case Store(j, w) => if j == k then w else v
    case Dma(_, _, _) => v
    case Restart => InitialWord(k)
  }

  // ------------------------------------------------------------------
  // One register at a time

  /** What one operation does to register `k`, whatever the others hold. */
  function NextWord(k: nat, w: bv32, op: Op): bv32 {
    match op
    case Store(j, v) => if j == k then Stored(k, w, v) else w
    case Dma(success, _, _) =>
      if k == STATUS then DmaStatus(w, success)
      else if k == IRQ_STATUS then DmaIrq(w, success)
      else w
    case Restart => InitialWord(k)
  }

  function WordAt(ops: seq<Op>, k: nat): bv32
    requires k < WORDS
  {
    if ops == [] then InitialWord(k) else NextWord(k, WordAt(Front(ops), k), Last(ops))
  }

  lemma WordAfterStore(r: BarRegs, j: nat, v: bv32, k: nat)
    requires k < WORDS && j < WORDS
    ensures Write(r, j, v).words[k] == if j == k then Stored(k, r.words[k], v) else r.words[k]
  {
  }

  lemma TwoUpdates<T>(ws: seq<T>, i: nat, a: T, j: nat, b: T, k: nat)
    requires i < |ws| && j < |ws| && k < |ws| && i != j
    ensures ws[i := a][j := b][k] == if k == i then a else if k == j then b else ws[k]
  {
  }

  lemma DmaWordAt(ws: seq<bv32>, success: bool, k: nat)
    requires k < WORDS == |ws|
    ensures DmaWords(ws, success)[k] ==
            if k == STATUS then DmaStatus(ws[k], success) else if k == IRQ_STATUS then DmaIrq(ws[k], success) else ws[k]
  {
    TwoUpdates(ws, STATUS, DmaStatus(ws[STATUS], success), IRQ_STATUS, DmaIrq(ws[IRQ_STATUS], success), k);
  }

  lemma PerfWordAt(ws: seq<bv32>, latency: nat, transfers: nat, k: nat)
    requires k < WORDS == |ws| && k != PERF_LATENCY && k != PERF_COUNT
    ensures PerfWords(ws, latency, transfers)[k] == ws[k]
  {
    TwoUpdates(ws, PERF_LATENCY, Low32(latency / 1000), PERF_COUNT, Low32(transfers), k);
  }

  lemma WordAfterDma(r: BarRegs, success: bool, latency: Option<nat>, transfers: nat, k: nat)
    requires k < WORDS && k != PERF_LATENCY && k != PERF_COUNT
    ensures UpdateDma(r, success, latency, transfers).words[k]
            == NextWord(k, r.words[k], Dma(success, latency, transfers))
  {
    DmaWordAt(r.words, success, k);
    if success && latency.Some? {
      PerfWordAt(DmaWords(r.words, success), latency.value, transfers, k);
    }
  }

  lemma WordAfter(r: BarRegs, op: Op, k: nat)
    requires k < WORDS && k != PERF_LATENCY && k != PERF_COUNT
    ensures Apply(r, op).words[k] == NextWord(k, r.words[k], op)
  {
    match op
    case Store(j, v) =>
      if j < WORDS {
        WordAfterStore(r, j, v, k);
      }
    case Dma(success, latency, transfers) => WordAfterDma(r, success, latency, transfers, k);
    case Restart =>
  }

  /** Registers do not disturb each other. */
  lemma {:induction false} RegistersAreIndependent(ops: seq<Op>, k: nat)
    requires k < WORDS && k != PERF_LATENCY && k != PERF_COUNT
    ensures After(ops).words[k] == WordAt(ops, k)
  {
    if ops != [] {
      RegistersAreIndependent(Front(ops), k);
      WordAfter(After(Front(ops)), Last(ops), k);
    }
  }

  // ------------------------------------------------------------------
  // Interrupts

  /**
   The last restart found an interrupt pending, and there was neither a transfer
   nor a store to the interrupt status since.
   */
  predicate StalePending(ops: seq<Op>) {
    ops != [] &&
    match Last(ops)
    case Store(k, _) => k != IRQ_STATUS && StalePending(Front(ops))
    case Dma(_, _, _) => false
    case Restart => After(Front(ops)).pending
  }

  /**
   An interrupt is pending whenever a status bit is set. The converse holds
   exactly when the flag is not left over from before a restart. No DMA is ever
   reported as running.
   */
  lemma {:induction false} PendingIffInterrupt(ops: seq<Op>)
    ensures var r := After(ops);
            && (r.words[IRQ_STATUS] != 0 ==> r.pending)
            && ((r.words[IRQ_STATUS] != 0 <==> r.pending) <==> !StalePending(ops))
            && !r.dmaActive
  {
    if ops != [] {
      PendingIffInterrupt(Front(ops));
      PendingStep(After(Front(ops)), Last(ops), StalePending(Front(ops)));
    }
  }

  predicate PendingMatches(r: BarRegs, stale: bool) {
    && (r.pending <==> r.words[IRQ_STATUS] != 0 || stale)
    && (stale ==> r.words[IRQ_STATUS] == 0)
  }

  lemma PendingStep(r: BarRegs, op: Op, stale: bool)
    requires PendingMatches(r, stale)
    ensures PendingMatches(Apply(r, op),
              match op
              case Store(k, _) => k != IRQ_STATUS && stale
              case Dma(_, _, _) => false
              case Restart => r.pending)
  {
    WordAfter(r, op, IRQ_STATUS);
    match op
    case Store(k, v) =>
      if k == IRQ_STATUS {
        ClearingZero(v);
        assert Apply(r, op).pending == (r.pending && Stored(IRQ_STATUS, r.words[IRQ_STATUS], v) != 0);
      }
    case Dma(success, _, _) => RaisedIsNonZero(r.words[IRQ_STATUS], success);
    case Restart =>
  }

  lemma RaisedIsNonZero(x: bv32, success: bool)
    ensures DmaIrq(x, success) != 0
  {
  }

  lemma ClearingZero(v: bv32)
    ensures Stored(IRQ_STATUS, 0, v) == 0
  {
  }

  predicate IsBit(m: bv32) {
    m != 0 && m & (m - 1) == 0
  }

  lemma StatusBits(w: bv32, busy: bool, pending: bool)
    ensures var v := StatusView(w, busy, pending);
            && (v & INTERRUPT_PENDING != 0 <==> pending)
            && (v & DMA_BUSY != 0 <==> busy)
            && (v & STATUS_ERROR == w & STATUS_ERROR)
            && (v & DEVICE_READY == w & DEVICE_READY)
  {
  }

  /**
   Whatever software stored there, REG_STATUS reports a pending interrupt exactly
   when an interrupt bit is set or the flag is left over from before a restart.
   */
  lemma {:induction false} StatusShowsPending(ops: seq<Op>, avgLatency: nat, transfers: nat)
    ensures var r := After(ops);
            var v := Read(r, 1, avgLatency, transfers);
            && (v & 8 != 0 <==> r.words[8] != 0 || StalePending(ops))
            && v & 2 == 0
  {
    PendingIffInterrupt(ops);
    var r := After(ops);
    StatusBits(r.words[STATUS], r.dmaActive, r.pending);
  }

  predicate Raises(op: Op, m: bv32) {
    op.Dma? && m == if op.success then 1 else 2
  }

  predicate Clears(op: Op, m: bv32) {
    op.Restart? || (op.Store? && op.reg == IRQ_STATUS && op.value & m != 0)
  }

  /** The event of bit `m` happened at `i` and no later store to the status register, or restart, cleared it. */
  predicate OutstandingFrom(ops: seq<Op>, m: bv32, i: int) {
    0 <= i < |ops| && Raises(ops[i], m) && forall j :: i < j < |ops| ==> !Clears(ops[j], m)
  }

  ghost predicate Outstanding(ops: seq<Op>, m: bv32) {
    exists i :: OutstandingFrom(ops, m, i)
  }

  lemma OutstandingFromSnoc(ops: seq<Op>, m: bv32, i: int)
    requires ops != []
    ensures OutstandingFrom(ops, m, i) <==>
            if i == |ops| - 1 then Raises(Last(ops), m)
            else OutstandingFrom(Front(ops), m, i) && !Clears(Last(ops), m)
  {
    var p := Front(ops);
    assert forall j :: 0 <= j < |p| ==> p[j] == ops[j];
    if OutstandingFrom(ops, m, i) && i < |p| {
      assert !Clears(ops[|p|], m);
    }
  }

  lemma OutstandingSnoc(ops: seq<Op>, m: bv32)
    requires ops != []
    ensures Outstanding(ops, m) <==>
            Raises(Last(ops), m) || (Outstanding(Front(ops), m) && !Clears(Last(ops), m))
  {
    forall i {
      OutstandingFromSnoc(ops, m, i);
    }
    if Raises(Last(ops), m) {
      assert OutstandingFrom(ops, m, |ops| - 1);
    } else if Outstanding(Front(ops), m) && !Clears(Last(ops), m) {
      var i :| OutstandingFrom(Front(ops), m, i);
      assert OutstandingFrom(ops, m, i);
    }
  }

  lemma MaskLaws(x: bv32, v: bv32, m: bv32)
    requires IsBit(m)
    ensures x & !v & m != 0 <==> x & m != 0 && v & m == 0
    ensures DmaIrq(x, true) & m != 0 <==> x & m != 0 || m == DMA_COMPLETE
    ensures DmaIrq(x, false) & m != 0 <==> x & m != 0 || m == DMA_ERROR
  {
  }

  lemma {:induction false} IrqWord(ops: seq<Op>, m: bv32)
    requires IsBit(m)
    ensures WordAt(ops, IRQ_STATUS) & m != 0 <==> Outstanding(ops, m)
  {
    if ops == [] {
      ZeroMasked(m);
    } else {
      var op := Last(ops);
      IrqWord(Front(ops), m);
      OutstandingSnoc(ops, m);
      MaskLaws(WordAt(Front(ops), IRQ_STATUS), if op.Store? then op.value else 0, m);
      ZeroMasked(m);
    }
  }

  /** Each interrupt bit is set exactly when its event occurred since it was last cleared. */
  lemma {:induction false} BitIffOutstanding(ops: seq<Op>, m: bv32)
    requires IsBit(m)
    ensures After(ops).words[8] & m != 0 <==> Outstanding(ops, m)
  {
    RegistersAreIndependent(ops, IRQ_STATUS);
    IrqWord(ops, m);
  }

  lemma ZeroMasked(m: bv32)
    ensures 0 & m == 0
  {
  }

  // ------------------------------------------------------------------
  // Read-back

  predicate Plain(k: nat) {
    k < WORDS && k !in {STATUS, CONTROL, IRQ_STATUS, PERF_LATENCY, PERF_COUNT}
  }

  /** Plain registers read back what was stored last, untouched by stores elsewhere and by DMA. */
  lemma {:induction false} PlainReadBack(ops: seq<Op>, k: nat, avgLatency: nat, transfers: nat)
    requires Plain(k)
    ensures Read(After(ops), k, avgLatency, transfers) == LastStored(ops, k)
  {
    RegistersAreIndependent(ops, k);
    PlainWord(ops, k);
  }

  lemma {:induction false} PlainWord(ops: seq<Op>, k: nat)
    requires Plain(k)
    ensures WordAt(ops, k) == LastStored(ops, k)
  {
    if ops != [] {
      PlainWord(Front(ops), k);
    }
  }

  predicate WithoutReset(w: bv32, v: bv32) {
    w == v & !DMA_RESET
  }

  lemma ControlBase()
    ensures WithoutReset(InitialWord(CONTROL), InitialWord(CONTROL))
  {
  }

  lemma ControlStep(w: bv32, v: bv32, op: Op)
    requires WithoutReset(w, v)
    ensures WithoutReset(NextWord(CONTROL, w, op), NextStored(CONTROL, v, op))
  {
    ControlBase();
  }

  lemma {:induction false} ControlWord(ops: seq<Op>)
    ensures WithoutReset(WordAt(ops, CONTROL), LastStored(ops, CONTROL))
  {
    if ops == [] {
      ControlBase();
    } else {
      ControlWord(Front(ops));
      ControlStep(WordAt(Front(ops), CONTROL), LastStored(Front(ops), CONTROL), Last(ops));
    }
  }

  lemma ConstantBits()
    ensures DEVICE_READY & STATUS_ERROR == 0
  {
  }

  lemma ResetStaysClear(v: bv32)
    ensures v & !DMA_RESET & DMA_RESET == 0
  {
  }

  /** The control register reads back the last store without its self-clearing reset bit. */
  lemma {:induction false} ControlReadBack(ops: seq<Op>, avgLatency: nat, transfers: nat)
    ensures Read(After(ops), 2, avgLatency, transfers) == LastStored(ops, 2) & !4
    ensures Read(After(ops), 2, avgLatency, transfers) & 4 == 0
  {
    RegistersAreIndependent(ops, CONTROL);
    ControlWord(ops);
    ResetStaysClear(LastStored(ops, CONTROL));
  }

  /** The low byte of the last value ever stored to the injection register, restarts or not. */
  function InjectedByte(ops: seq<Op>): bv32 {
    if ops == [] then 0 else NextInjected(InjectedByte(Front(ops)), Last(ops))
  }

  function NextInjected(byte: bv32, op: Op): bv32 {
    if op.Store? && op.reg == ERROR_INJECT then op.value & 0xFF else byte
  }

  /** The last restart found error injection on, and the injection register was not stored to since. */
  predicate StaleInjection(ops: seq<Op>) {
    ops != [] && NextStale(StaleInjection(Front(ops)), After(Front(ops)).simulateErrors, Last(ops))
  }

  predicate NextStale(stale: bool, injecting: bool, op: Op) {
    match op
    case Store(k, _) => k != ERROR_INJECT && stale
    case Dma(_, _, _) => stale
    case Restart => injecting
  }

  /** Error injection is on exactly when the byte stored last is non-zero, and the rate is that byte. */
  lemma {:induction false} InjectionFollowsStores(ops: seq<Op>)
    ensures var r := After(ops);
            && (r.simulateErrors <==> InjectedByte(ops) != 0)
            && (r.simulateErrors ==> r.rate == InjectedByte(ops))
  {
    if ops != [] {
      InjectionFollowsStores(Front(ops));
    }
  }

  /** The injection register holding `v` shows the byte stored last, or zero when injection is left over. */
  predicate ShowsByte(v: bv32, byte: bv32, stale: bool) {
    v & 0xFF == (if stale then 0 else byte) && (stale ==> byte != 0)
  }

  lemma ShowsByteStep(v: bv32, byte: bv32, stale: bool, op: Op)
    requires ShowsByte(v, byte, stale)
    ensures ShowsByte(NextStored(ERROR_INJECT, v, op), NextInjected(byte, op), NextStale(stale, byte != 0, op))
  {
  }

  lemma {:induction false} RegisterByte(ops: seq<Op>)
    ensures ShowsByte(LastStored(ops, ERROR_INJECT), InjectedByte(ops), StaleInjection(ops))
  {
    if ops != [] {
      RegisterByte(Front(ops));
      InjectionFollowsStores(Front(ops));
      ShowsByteStep(LastStored(Front(ops), ERROR_INJECT), InjectedByte(Front(ops)), StaleInjection(Front(ops)),
                    Last(ops));
    }
  }

  /**
   The injection register shows whether errors are injected, and at which rate,
   exactly when injection is not left over from before a restart.
   */
  lemma {:induction false} InjectionFollowsRegister(ops: seq<Op>)
    ensures var r, byte := After(ops), After(ops).words[17] & 0xFF;
            && ((r.simulateErrors <==> byte != 0) <==> !StaleInjection(ops))
            && (byte != 0 ==> r.simulateErrors && r.rate == byte)
  {
    RegistersAreIndependent(ops, ERROR_INJECT);
    PlainWord(ops, ERROR_INJECT);
    RegisterByte(ops);
    InjectionFollowsStores(ops);
  }

  /** A restart after a transfer leaves an interrupt pending that no status bit shows. */
  lemma RestartKeepsPending()
    ensures var r := After([Dma(true, None, 0), Restart]);
            r.pending && r.words[IRQ_STATUS] == 0
  {
    var ops := [Dma(true, None, 0), Restart];
    assert Front(ops) == [Dma(true, None, 0)];
    PendingIffInterrupt(ops);
  }

  /** A restart after switching error injection on leaves it on while its register is zero. */
  lemma RestartKeepsInjecting()
    ensures var r := After([Store(ERROR_INJECT, 5), Restart]);
            r.simulateErrors && r.words[ERROR_INJECT] == 0
  {
    var ops := [Store(ERROR_INJECT, 5), Restart];
    assert Front(ops) == [Store(ERROR_INJECT, 5)];
    assert After(Front(ops)).simulateErrors;
  }

  /** The error bit of REG_STATUS was stored there, or a transfer failed since the last store or restart. */
  predicate ErrorLatched(ops: seq<Op>) {
    ops != [] &&
    match Last(ops)
    case Store(k, v) => if k == 1 then v & 4 != 0 else ErrorLatched(Front(ops))
    case Dma(success, _, _) => !success || ErrorLatched(Front(ops))
    case Restart => false
  }

  lemma ErrorBit(w: bv32)
    ensures DmaStatus(w, true) & STATUS_ERROR == w & STATUS_ERROR
    ensures DmaStatus(w, false) & STATUS_ERROR != 0
  {
  }

  lemma {:induction false} ErrorWordLatches(ops: seq<Op>)
    ensures WordAt(ops, STATUS) & STATUS_ERROR != 0 <==> ErrorLatched(ops)
  {
    if ops == [] {
      ConstantBits();
    } else {
      ErrorWordLatches(Front(ops));
      ConstantBits();
      ErrorBit(WordAt(Front(ops), STATUS));
    }
  }

  /** REG_STATUS keeps reporting a failed transfer until software stores to it. */
  lemma {:induction false} StatusLatchesErrors(ops: seq<Op>, avgLatency: nat, transfers: nat)
    ensures Read(After(ops), 1, avgLatency, transfers) & 4 != 0 <==> ErrorLatched(ops)
  {
    ErrorWordLatches(ops);
    RegistersAreIndependent(ops, STATUS);
    var r := After(ops);
    StatusBits(r.words[STATUS], r.dmaActive, r.pending);
  }

  /** The bits of `m` agree. */
  predicate AgreeOn(w: bv32, v: bv32, m: bv32) {
    w & m == v & m
  }

  lemma TransferKeepsBits(w: bv32, success: bool, m: bv32)
    requires m & 0xE == 0
    ensures DmaStatus(w, success) & m == w & m
  {
  }

  lemma ViewKeepsBits(w: bv32, busy: bool, pending: bool, m: bv32)
    requires m & 0xE == 0
    ensures StatusView(w, busy, pending) & m == w & m
  {
  }

  lemma StatusAgreesStep(w: bv32, v: bv32, op: Op, m: bv32)
    requires AgreeOn(w, v, m) && m & 0xE == 0
    ensures AgreeOn(NextWord(STATUS, w, op), NextStored(STATUS, v, op), m)
  {
    if op.Dma? {
      TransferKeepsBits(w, op.success, m);
    }
  }

  lemma {:induction false} StatusAgrees(ops: seq<Op>, m: bv32)
    requires m & 0xE == 0
    ensures AgreeOn(WordAt(ops, STATUS), LastStored(ops, STATUS), m)
  {
    if ops != [] {
      StatusAgrees(Front(ops), m);
      StatusAgreesStep(WordAt(Front(ops), STATUS), LastStored(Front(ops), STATUS), Last(ops), m);
    }
  }

  /**
   Apart from the busy, error and pending bits REG_STATUS reads back what was
   stored last: transfers leave the ready bit, and all others, alone.
   */
  lemma StatusKeepsOtherBits(ops: seq<Op>, m: bv32, avgLatency: nat, transfers: nat)
    requires m & 0xE == 0
    ensures Read(After(ops), 1, avgLatency, transfers) & m == LastStored(ops, 1) & m
  {
    StatusAgrees(ops, m);
    RegistersAreIndependent(ops, STATUS);
    var r := After(ops);
    ViewKeepsBits(r.words[STATUS], r.dmaActive, r.pending, m);
  }

  /** What a fresh device answers at each word. */
  lemma FreshDeviceReads(k: nat, avgLatency: nat, transfers: nat)
    requires k < 1024 && k != 12 && k != 13
    ensures Read(Initial(), k, avgLatency, transfers) ==
            if k == 0 then 0x1234_ABCD else if k == 1 || k == 2 then 1 else if k == 9 then 3 else 0
  {
    if k == 1 {
      FreshStatus();
    } else if k == 9 {
      BothEnabled();
    }
  }

  lemma FreshStatus()
    ensures StatusView(DEVICE_READY, false, false) == 1
  {
  }

  lemma BothEnabled()
    ensures DMA_COMPLETE | DMA_ERROR == 3
  {
  }
}

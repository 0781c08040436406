/**
 The descriptor ring as its threads execute it: one step per access to a shared
 variable, between taking and dropping the ring's spin lock. A run is any
 sequence of thread steps and clock ticks; a step that is not enabled (a thread
 spinning on the lock, say) leaves the state alone.
 */
module RingThreads {
  import opened BoundedFifo
  import opened Arithmetic
  import opened Sequences
  import opened Wrappers

  datatype Descriptor = Descriptor(bufferAddr: nat, length: nat, flags: nat, timestamp: nat, status: nat)

  const ZEROED := Descriptor(0, 0, 0, 0, 0)

  datatype RingData = RingData(
    desc: seq<Descriptor>,
    head: nat,
    tail: nat,
    count: int,
    submissions: nat,
    completions: nat,
    overruns: nat)

  type Ring = r: RingData | r.head < |r.desc| && r.tail < |r.desc|
    witness RingData([ZEROED], 0, 0, 0, 0, 0, 0)

  function InitialRing(size: nat): Ring
    requires 0 < size
  {
    RingData(seq(size, _ => ZEROED), 0, 0, 0, 0, 0, 0)
  }

  /** Where a thread stands inside submit or complete. */
  datatype Pc =
    | Idle
    | SubmitLock(request: Request)
    | SubmitCheck(request: Request)
    | SubmitOverrun(request: Request)
    | SubmitFill(request: Request)
    | SubmitHead(request: Request)
    | SubmitCount(request: Request)
    | SubmitTally(request: Request)
    | CompleteLock(status: nat)
    | CompleteCheck(status: nat)
    | CompleteRead(status: nat)
    | CompleteMark(status: nat, result: Result)
    | CompleteTail(status: nat, result: Result)
    | CompleteCount(status: nat, result: Result)
    | CompleteTally(status: nat, result: Result)
    | Unlocking(op: Op, result: Result)
    | Returning(op: Op, result: Result)

  predicate InCriticalSection(pc: Pc) {
    !(pc.Idle? || pc.SubmitLock? || pc.CompleteLock? || pc.Returning?)
  }

  /** The effect, if any, with which one step of the critical section is recorded. */
  datatype Micro = Micro(ring: Ring, pc: Pc, effect: Option<(Op, Result)>)

  function U64Sub(a: nat, b: nat): nat {
    (a - b) % U64
  }

  /** The index after `i`, wrapping at the end of the ring. */
  function Next(i: nat, n: nat): (j: nat)
    requires i < n
    ensures j == if i + 1 == n then 0 else i + 1
  {
    ModUnique(i + 1, if i + 1 == n then 1 else 0, if i + 1 == n then 0 else i + 1, n);
    (i + 1) % n
  }

  /** One step inside the critical section of submit or complete. */
  function MicroStep(r: Ring, pc: Pc, now: nat): Micro
    requires InCriticalSection(pc) && !pc.Unlocking?
  {
    var size := |r.desc|;
    match pc
    case SubmitCheck(q) =>
      if r.count >= size then Micro(r, SubmitOverrun(q), Some((Submit(q), NoSpace)))
      else Micro(r, SubmitFill(q), None)
    case SubmitOverrun(q) =>
      Micro(r.(overruns := r.overruns + 1), Unlocking(Submit(q), NoSpace), None)
    case SubmitFill(q) =>
      var d := Descriptor(q.bufferAddr, q.length, q.flags, now, 0);
      Micro(r.(desc := r.desc[r.head := d]), SubmitHead(q), Some((Submit(q), Accepted)))
    case SubmitHead(q) =>
      Micro(r.(head := Next(r.head, size)), SubmitCount(q), None)
    case SubmitCount(q) =>
      Micro(r.(count := r.count + 1), SubmitTally(q), None)
    case SubmitTally(q) =>
      Micro(r.(submissions := r.submissions + 1), Unlocking(Submit(q), Accepted), None)
    case CompleteCheck(st) =>
      if r.count == 0 then Micro(r, Unlocking(Complete(st), NoData), Some((Complete(st), NoData)))
      else Micro(r, CompleteRead(st), None)
    case CompleteRead(st) =>
      var d := r.desc[r.tail];
      var res := Completed(d.length, U64Sub(now, d.timestamp));
      Micro(r, CompleteMark(st, res), Some((Complete(st), res)))
    case CompleteMark(st, res) =>
      var d := r.desc[r.tail];
      Micro(r.(desc := r.desc[r.tail := d.(status := st)]), CompleteTail(st, res), None)
    case CompleteTail(st, res) =>
      Micro(r.(tail := Next(r.tail, size)), CompleteCount(st, res), None)
    case CompleteCount(st, res) =>
      Micro(r.(count := r.count - 1), CompleteTally(st, res), None)
    case CompleteTally(st, res) =>
      Micro(r.(completions := r.completions + 1), Unlocking(Complete(st), res), None)
  }

  // ------------------------------------------------------------------
  // The machine

  datatype State = State(
    ring: Ring,
    lock: Option<nat>,
    pcs: map<nat, Pc>,
    now: nat,
    history: History)

  datatype Step = Call(tid: nat, op: Op) | Run(tid: nat) | Tick(ns: nat)

  function PcOf(s: State, t: nat): Pc {
    if t in s.pcs then s.pcs[t] else Idle
  }

  predicate Enabled(s: State, step: Step) {
    match step
    case Call(t, _) => PcOf(s, t).Idle?
    case Run(t) =>
      var pc := PcOf(s, t);
      !pc.Idle? && (pc.SubmitLock? || pc.CompleteLock? ==> s.lock == None)
    // the 64-bit nanosecond clock does not wrap
    case Tick(d) => s.now + d < U64
  }

  function Started(op: Op): Pc {
    match op
    case Submit(q) => SubmitLock(q)
    case Complete(st) => CompleteLock(st)
  }

  function Recorded(t: nat, effect: Option<(Op, Result)>): History {
    match effect
    case None => []
    case Some((op, res)) => [Effect(t, op, res)]
  }

  function RunThread(s: State, t: nat): State
    requires Enabled(s, Run(t))
  {
    var pc := PcOf(s, t);
    if pc.SubmitLock? then s.(lock := Some(t), pcs := s.pcs[t := SubmitCheck(pc.request)])
    else if pc.CompleteLock? then s.(lock := Some(t), pcs := s.pcs[t := CompleteCheck(pc.status)])
    else if pc.Unlocking? then s.(lock := None, pcs := s.pcs[t := Returning(pc.op, pc.result)])
    else if pc.Returning? then s.(pcs := s.pcs[t := Idle], history := s.history + [Respond(t, pc.result)])
    else
      var m := MicroStep(s.ring, pc, s.now);
      s.(ring := m.ring, pcs := s.pcs[t := m.pc], history := s.history + Recorded(t, m.effect))
  }

  function Apply(s: State, step: Step): State {
    if !Enabled(s, step) then s
    else
      match step
      case Call(t, op) => s.(pcs := s.pcs[t := Started(op)], history := s.history + [Invoke(t, op)])
      case Run(t) => RunThread(s, t)
      case Tick(d) => s.(now := s.now + d, history := s.history + [Elapse(d)])
  }

  function Exec(size: nat, steps: seq<Step>): State
    requires 0 < size
  {
    if steps == [] then State(InitialRing(size), None, map[], 0, [])
    else Apply(Exec(size, Front(steps)), Last(steps))
  }

  // ------------------------------------------------------------------
  // Ring contents against the history

  /** The slot of the k-th entry in a ring of n slots: one further each time, wrapping at n. */
  function Slot(k: nat, n: nat): (i: nat)
    requires 0 < n
    ensures i < n
  {
    if k == 0 then 0
    else if Slot(k - 1, n) + 1 == n then 0
    else Slot(k - 1, n) + 1
  }

  lemma {:induction false} SlotIsModulo(k: nat, n: nat)
    requires 0 < n
    ensures Slot(k, n) == k % n
  {
    if k == 0 {
      ModUnique(0, 0, 0, n);
    } else {
      SlotIsModulo(k - 1, n);
      ModSucc(k - 1, n);
      assert Slot(k, n) == Next(Slot(k - 1, n), n);
    }
  }

  /** Entries less than a full turn apart never share a slot. */
  lemma SlotsDiffer(j: nat, k: nat, n: nat)
    requires j < k < j + n
    ensures Slot(j, n) != Slot(k, n)
  {
    SlotIsModulo(j, n);
    SlotIsModulo(k, n);
    ModDistinct(j, k, n);
  }

  predicate Stored(d: Descriptor, e: Entry) {
    d == Descriptor(e.request.bufferAddr, e.request.length, e.request.flags, e.stamp, 0)
  }

  function Bit(b: bool): nat {
    if b then 1 else 0
  }

  /**
   The counters after accepting `subs`, delivering `done` of them and refusing
   `refused` calls, with the corrections due while the lock holder is at `pc`.
   */
  predicate CountersMatch(r: Ring, pc: Pc, subs: nat, done: nat, refused: nat) {
    var retiring := pc.CompleteMark? || pc.CompleteTail?;
    && subs >= Bit(pc.SubmitHead?) && done >= Bit(retiring)
    && r.head == Slot(subs - Bit(pc.SubmitHead?), |r.desc|)
    && r.tail == Slot(done - Bit(retiring), |r.desc|)
    && r.count == subs - done - Bit(pc.SubmitHead? || pc.SubmitCount?) + Bit(retiring || pc.CompleteCount?)
    && r.submissions == subs - Bit(pc.SubmitHead? || pc.SubmitCount? || pc.SubmitTally?)
    && r.completions == done - Bit(retiring || pc.CompleteCount? || pc.CompleteTally?)
    && r.overruns == refused - Bit(pc.SubmitOverrun?)
  }

  /** Room is there when a slot is filled or retired; an entry is there when one is read. */
  predicate RoomAt(r: Ring, pc: Pc, live: int) {
    && 0 <= live <= |r.desc|
    && (pc.SubmitFill? || pc.CompleteMark? || pc.CompleteTail? || pc.CompleteCount? ==> live < |r.desc|)
    && (pc.SubmitHead? || pc.SubmitCount? || pc.CompleteRead? ==> live > 0)
  }

  /** Every live entry sits intact, and marked pending, in its slot. */
  predicate SlotsMatch(r: Ring, subs: seq<Entry>, done: nat) {
    forall k {:trigger subs[k]} :: done <= k < |subs| ==> Stored(r.desc[Slot(k, |r.desc|)], subs[k])
  }

  predicate Match(r: Ring, pc: Pc, subs: seq<Entry>, done: nat, refused: nat) {
    && CountersMatch(r, pc, |subs|, done, refused)
    && RoomAt(r, pc, |subs| - done)
    && SlotsMatch(r, subs, done)
  }

  predicate MatchesHistory(r: Ring, pc: Pc, h: History) {
    Match(r, pc, Submitted(h), |Returned(h)|, Rejected(h))
  }

  lemma FillKeepsMatch(r: Ring, q: Request, now: nat, subs: seq<Entry>, done: nat, refused: nat)
    requires Match(r, SubmitFill(q), subs, done, refused)
    ensures Match(MicroStep(r, SubmitFill(q), now).ring, SubmitHead(q), subs + [Entry(q, now)], done, refused)
  {
    var size, a := |r.desc|, |subs|;
    var r' := MicroStep(r, SubmitFill(q), now).ring;
    var subs' := subs + [Entry(q, now)];
    forall k | done <= k < a + 1
      ensures Stored(r'.desc[Slot(k, size)], subs'[k])
    {
      if k < a {
        SlotsDiffer(k, a, size);
        assert Stored(r.desc[Slot(k, size)], subs[k]);
      }
    }
  }

  lemma MarkKeepsMatch(r: Ring, pc: Pc, now: nat, subs: seq<Entry>, done: nat, refused: nat)
    requires pc.CompleteMark? && Match(r, pc, subs, done, refused)
    ensures Match(MicroStep(r, pc, now).ring, MicroStep(r, pc, now).pc, subs, done, refused)
  {
    var size := |r.desc|;
    var r' := MicroStep(r, pc, now).ring;
    forall k | done <= k < |subs|
      ensures Stored(r'.desc[Slot(k, size)], subs[k])
    {
      SlotsDiffer(done - 1, k, size);
    }
  }

  lemma BookkeepingKeepsMatch(r: Ring, pc: Pc, now: nat, subs: seq<Entry>, done: nat, refused: nat)
    requires InCriticalSection(pc) && !pc.Unlocking? && !pc.CompleteMark?
    requires !pc.SubmitFill? && !pc.CompleteRead?
    requires Match(r, pc, subs, done, refused)
    requires MicroStep(r, pc, now).effect.None?
    ensures Match(MicroStep(r, pc, now).ring, MicroStep(r, pc, now).pc, subs, done, refused)
  {
    var m := MicroStep(r, pc, now);
    assert m.ring.desc == r.desc;
    assert SlotsMatch(m.ring, subs, done);
  }

  lemma ReadKeepsMatch(r: Ring, st: nat, res: Result, subs: seq<Entry>, done: nat, refused: nat)
    requires Match(r, CompleteRead(st), subs, done, refused)
    ensures Match(r, CompleteMark(st, res), subs, done + 1, refused)
  {
  }

  lemma RefusalKeepsMatch(r: Ring, q: Request, subs: seq<Entry>, done: nat, refused: nat)
    requires Match(r, SubmitCheck(q), subs, done, refused)
    ensures Match(r, SubmitOverrun(q), subs, done, refused + 1)
  {
  }

  /** The answer read from the tail slot is the answer the FIFO gives. */
  lemma ReadAnswersFifo(r: Ring, st: nat, t: nat, h: History)
    requires MatchesHistory(r, CompleteRead(st), h) && Behaves(|r.desc|, h) && Now(h) < U64
    ensures var m := MicroStep(r, CompleteRead(st), Now(h));
            m.effect.Some? && Fits(|r.desc|, Queue(h), Now(h), Effect(t, Complete(st), m.effect.value.1))
  {
    OldestIsQueued(|r.desc|, h);
    TailHoldsOldest(r, st, Submitted(h), |Returned(h)|, Rejected(h));
    AgeFits(Now(h), Queue(h)[0].stamp);
  }

  lemma OldestIsQueued(cap: nat, h: History)
    requires Behaves(cap, h) && |Returned(h)| < |Submitted(h)|
    ensures Queue(h) != [] && Queue(h)[0] == Submitted(h)[|Returned(h)|] && Queue(h)[0].stamp <= Now(h)
  {
    DeliveriesFollowSubmissions(cap, h);
    StampsAreOrdered(cap, h);
  }

  lemma TailHoldsOldest(r: Ring, st: nat, subs: seq<Entry>, done: nat, refused: nat)
    requires Match(r, CompleteRead(st), subs, done, refused)
    ensures done < |subs| && Stored(r.desc[r.tail], subs[done])
  {
    assert Stored(r.desc[Slot(done, |r.desc|)], subs[done]);
  }

  lemma AgeFits(now: nat, stamp: nat)
    requires stamp <= now < U64
    ensures U64Sub(now, stamp) == now - stamp
  {
  }

  lemma MicroAnswersFifo(r: Ring, pc: Pc, t: nat, h: History)
    requires InCriticalSection(pc) && !pc.Unlocking?
    requires MatchesHistory(r, pc, h) && Behaves(|r.desc|, h) && Now(h) < U64
    requires MicroStep(r, pc, Now(h)).effect.Some?
    ensures var (op, res) := MicroStep(r, pc, Now(h)).effect.value;
            Fits(|r.desc|, Queue(h), Now(h), Effect(t, op, res))
  {
    DeliveriesFollowSubmissions(|r.desc|, h);
    if pc.CompleteRead? {
      ReadAnswersFifo(r, pc.status, t, h);
    }
  }

  /** A step that takes effect changes the tallies as its answer says. */
  predicate Tallies(effect: (Op, Result), now: nat, subs: seq<Entry>, done: nat, refused: nat,
                    subs': seq<Entry>, done': nat, refused': nat) {
    var (op, res) := effect;
    && subs' == (if res.Accepted? && op.Submit? then subs + [Entry(op.request, now)] else subs)
    && done' == done + Bit(res.Completed?)
    && refused' == refused + Bit(res.NoSpace?)
  }

  lemma EffectUpdatesMatch(r: Ring, pc: Pc, now: nat, subs: seq<Entry>, done: nat, refused: nat,
                           subs': seq<Entry>, done': nat, refused': nat)
    requires InCriticalSection(pc) && !pc.Unlocking?
    requires Match(r, pc, subs, done, refused)
    requires MicroStep(r, pc, now).effect.Some?
    requires Tallies(MicroStep(r, pc, now).effect.value, now, subs, done, refused, subs', done', refused')
    ensures Match(MicroStep(r, pc, now).ring, MicroStep(r, pc, now).pc, subs', done', refused')
  {
    if pc.SubmitFill? {
      FillKeepsMatch(r, pc.request, now, subs, done, refused);
    } else if pc.CompleteRead? {
      ReadKeepsMatch(r, pc.status, MicroStep(r, pc, now).effect.value.1, subs, done, refused);
    } else if pc.SubmitCheck? {
      RefusalKeepsMatch(r, pc.request, subs, done, refused);
    }
  }

  lemma EffectFits(r: Ring, pc: Pc, now: nat)
    requires InCriticalSection(pc) && !pc.Unlocking?
    requires MicroStep(r, pc, now).effect.Some?
    ensures var (op, res) := MicroStep(r, pc, now).effect.value;
            res.Accepted? || res.NoSpace? <==> op.Submit?
  {
  }

  lemma EffectProjections(h: History, t: nat, op: Op, res: Result)
    requires res.Accepted? || res.NoSpace? <==> op.Submit?
    ensures var h' := h + [Effect(t, op, res)];
            && Submitted(h') == (if res.Accepted? then Submitted(h) + [Entry(op.request, Now(h))] else Submitted(h))
            && |Returned(h')| == |Returned(h)| + Bit(res.Completed?)
            && Rejected(h') == Rejected(h) + Bit(res.NoSpace?)
  {
    Snoc(h, Effect(t, op, res));
  }

  lemma RecordedTallies(effect: (Op, Result), t: nat, h: History)
    requires effect.1.Accepted? || effect.1.NoSpace? <==> effect.0.Submit?
    ensures var h' := h + Recorded(t, Some(effect));
            Tallies(effect, Now(h), Submitted(h), |Returned(h)|, Rejected(h),
                    Submitted(h'), |Returned(h')|, Rejected(h'))
  {
    EffectProjections(h, t, effect.0, effect.1);
  }

  lemma EffectKeepsMatch(r: Ring, pc: Pc, t: nat, h: History)
    requires InCriticalSection(pc) && !pc.Unlocking?
    requires MatchesHistory(r, pc, h)
    requires MicroStep(r, pc, Now(h)).effect.Some?
    ensures var m := MicroStep(r, pc, Now(h));
            MatchesHistory(m.ring, m.pc, h + Recorded(t, m.effect))
  {
    var effect := MicroStep(r, pc, Now(h)).effect;
    var h' := h + Recorded(t, effect);
    EffectFits(r, pc, Now(h));
    RecordedTallies(effect.value, t, h);
    EffectUpdatesMatch(r, pc, Now(h), Submitted(h), |Returned(h)|, Rejected(h),
                       Submitted(h'), |Returned(h')|, Rejected(h'));
  }

  lemma SilentKeepsMatch(r: Ring, pc: Pc, h: History)
    requires InCriticalSection(pc) && !pc.Unlocking?
    requires MatchesHistory(r, pc, h)
    requires MicroStep(r, pc, Now(h)).effect.None?
    ensures var m := MicroStep(r, pc, Now(h));
            MatchesHistory(m.ring, m.pc, h)
  {
    if pc.CompleteMark? {
      MarkKeepsMatch(r, pc, Now(h), Submitted(h), |Returned(h)|, Rejected(h));
    } else {
      BookkeepingKeepsMatch(r, pc, Now(h), Submitted(h), |Returned(h)|, Rejected(h));
    }
  }

  // ------------------------------------------------------------------
  // The invariant of the whole machine

  function PcPhase(pc: Pc): Phase {
    match pc
    case Idle => Ready
    case SubmitLock(q) => Called(Submit(q))
    case SubmitCheck(q) => Called(Submit(q))
    case SubmitFill(q) => Called(Submit(q))
    case SubmitOverrun(q) => Took(Submit(q), NoSpace)
    case SubmitHead(q) => Took(Submit(q), Accepted)
    case SubmitCount(q) => Took(Submit(q), Accepted)
    case SubmitTally(q) => Took(Submit(q), Accepted)
    case CompleteLock(st) => Called(Complete(st))
    case CompleteCheck(st) => Called(Complete(st))
    case CompleteRead(st) => Called(Complete(st))
    case CompleteMark(st, res) => Took(Complete(st), res)
    case CompleteTail(st, res) => Took(Complete(st), res)
    case CompleteCount(st, res) => Took(Complete(st), res)
    case CompleteTally(st, res) => Took(Complete(st), res)
    case Unlocking(op, res) => Took(op, res)
    case Returning(op, res) => Took(op, res)
  }

  function HolderPc(s: State): Pc {
    if s.lock.None? then Idle else PcOf(s, s.lock.value)
  }

  ghost predicate MutualExclusion(s: State) {
    forall t: nat :: InCriticalSection(PcOf(s, t)) <==> s.lock == Some(t)
  }

  ghost predicate PhasesMatch(s: State) {
    forall t: nat :: PhaseOf(s.history, t) == PcPhase(PcOf(s, t))
  }

  ghost predicate Inv(size: nat, s: State) {
    && |s.ring.desc| == size
    && s.now == Now(s.history) < U64
    && Linearizable(size, s.history)
    && MutualExclusion(s)
    && PhasesMatch(s)
    && MatchesHistory(s.ring, HolderPc(s), s.history)
  }

  /** Between neutral program points the correction terms do not matter. */
  predicate Neutral(pc: Pc) {
    pc.Idle? || pc.SubmitCheck? || pc.CompleteCheck? || pc.Unlocking?
  }

  lemma PhaseStep(s: State, s': State, t: nat, e: Event)
    requires PhasesMatch(s)
    requires !e.Elapse? && e.tid == t && InTurn(s.history, e)
    requires s'.history == s.history + [e]
    requires forall u: nat :: u != t ==> PcOf(s', u) == PcOf(s, u)
    requires PcPhase(PcOf(s', t)) == match e
                                     case Invoke(_, op) => Called(op)
                                     case Effect(_, op, r) => Took(op, r)
                                     case Respond(_, _) => Ready
    ensures PhasesMatch(s')
  {
    Snoc(s.history, e);
  }

  predicate AtMicroStep(s: State, t: nat) {
    InCriticalSection(PcOf(s, t)) && !PcOf(s, t).Unlocking?
  }

  lemma MicroKeepsExclusion(s: State, t: nat)
    requires AtMicroStep(s, t) && MutualExclusion(s)
    ensures var s', m := RunThread(s, t), MicroStep(s.ring, PcOf(s, t), s.now);
            && MutualExclusion(s')
            && HolderPc(s) == PcOf(s, t) && HolderPc(s') == m.pc == PcOf(s', t)
            && forall u: nat :: u != t ==> PcOf(s', u) == PcOf(s, u)
  {
    var s' := RunThread(s, t);
    assert forall u: nat :: u != t ==> PcOf(s', u) == PcOf(s, u);
    assert InCriticalSection(PcOf(s', t));
  }

  lemma EffectKeepsInv(size: nat, s: State, t: nat)
    requires Inv(size, s) && AtMicroStep(s, t)
    requires MicroStep(s.ring, PcOf(s, t), s.now).effect.Some?
    ensures Inv(size, RunThread(s, t))
  {
    var pc := PcOf(s, t);
    var m := MicroStep(s.ring, pc, s.now);
    var e := Effect(t, m.effect.value.0, m.effect.value.1);
    MicroKeepsExclusion(s, t);
    MicroAnswersFifo(s.ring, pc, t, s.history);
    EffectKeepsMatch(s.ring, pc, t, s.history);
    Snoc(s.history, e);
    LinearizableSnoc(size, s.history, e);
    assert PhaseOf(s.history, t) == PcPhase(pc);
    PhaseStep(s, RunThread(s, t), t, e);
  }

  lemma SilentKeepsInv(size: nat, s: State, t: nat)
    requires Inv(size, s) && AtMicroStep(s, t)
    requires MicroStep(s.ring, PcOf(s, t), s.now).effect.None?
    ensures Inv(size, RunThread(s, t))
  {
    MicroKeepsExclusion(s, t);
    SilentKeepsMatch(s.ring, PcOf(s, t), s.history);
    assert RunThread(s, t).history == s.history;
    assert PhaseOf(s.history, t) == PcPhase(PcOf(s, t));
  }

  /** Taking or dropping the lock moves the holder between program points with no correction due. */
  lemma LockKeepsInv(size: nat, s: State, t: nat, lock: Option<nat>, pc: Pc)
    requires Inv(size, s) && PcPhase(pc) == PcPhase(PcOf(s, t))
    requires s.lock.None? || s.lock == Some(t)
    requires lock == if InCriticalSection(pc) then Some(t) else None
    requires Neutral(HolderPc(s)) && (InCriticalSection(pc) ==> Neutral(pc))
    ensures Inv(size, s.(lock := lock, pcs := s.pcs[t := pc]))
  {
    var s' := s.(lock := lock, pcs := s.pcs[t := pc]);
    assert forall u: nat :: u != t ==> PcOf(s', u) == PcOf(s, u);
    assert Neutral(HolderPc(s'));
  }

  lemma CallOrReturnKeepsInv(size: nat, s: State, t: nat, e: Event, pc: Pc)
    requires Inv(size, s) && !e.Effect? && !e.Elapse? && e.tid == t && InTurn(s.history, e)
    requires !InCriticalSection(PcOf(s, t)) && !InCriticalSection(pc)
    requires PcPhase(pc) == if e.Invoke? then Called(e.op) else Ready
    ensures Inv(size, s.(pcs := s.pcs[t := pc], history := s.history + [e]))
  {
    var s' := s.(pcs := s.pcs[t := pc], history := s.history + [e]);
    assert forall u: nat :: u != t ==> PcOf(s', u) == PcOf(s, u);
    assert HolderPc(s') == HolderPc(s);
    PhaseStep(s, s', t, e);
    Snoc(s.history, e);
    LinearizableSnoc(size, s.history, e);
  }

  lemma TickKeepsInv(size: nat, s: State, d: nat)
    requires Inv(size, s) && s.now + d < U64
    ensures Inv(size, s.(now := s.now + d, history := s.history + [Elapse(d)]))
  {
    var s' := s.(now := s.now + d, history := s.history + [Elapse(d)]);
    LinearizableSnoc(size, s.history, Elapse(d));
    TickKeepsPhases(s, s', d);
    TickKeepsMatch(s.ring, HolderPc(s), s.history, d);
    assert HolderPc(s') == HolderPc(s);
  }

  lemma TickKeepsPhases(s: State, s': State, d: nat)
    requires PhasesMatch(s) && s'.history == s.history + [Elapse(d)] && s'.pcs == s.pcs
    ensures PhasesMatch(s')
  {
    Snoc(s.history, Elapse(d));
    assert forall u: nat :: PcOf(s', u) == PcOf(s, u);
  }

  lemma TickKeepsMatch(r: Ring, pc: Pc, h: History, d: nat)
    requires MatchesHistory(r, pc, h)
    ensures MatchesHistory(r, pc, h + [Elapse(d)]) && Now(h + [Elapse(d)]) == Now(h) + d
  {
    Snoc(h, Elapse(d));
  }

  lemma StepKeepsInv(size: nat, s: State, step: Step)
    requires Inv(size, s)
    ensures Inv(size, Apply(s, step))
  {
    if Enabled(s, step) {
      match step
      case Call(t, op) =>
        assert PhaseOf(s.history, t) == PcPhase(PcOf(s, t));
        CallOrReturnKeepsInv(size, s, t, Invoke(t, op), Started(op));
      case Tick(d) => TickKeepsInv(size, s, d);
      case Run(t) => ThreadKeepsInv(size, s, t);
    }
  }

  lemma ThreadKeepsInv(size: nat, s: State, t: nat)
    requires Inv(size, s) && Enabled(s, Run(t))
    ensures Inv(size, RunThread(s, t))
  {
    var pc := PcOf(s, t);
    if pc.Returning? {
      assert PhaseOf(s.history, t) == PcPhase(pc);
      CallOrReturnKeepsInv(size, s, t, Respond(t, pc.result), Idle);
    } else if AtMicroStep(s, t) {
      if MicroStep(s.ring, pc, s.now).effect.Some? {
        EffectKeepsInv(size, s, t);
      } else {
        SilentKeepsInv(size, s, t);
      }
    } else {
      var s' := RunThread(s, t);
      LockKeepsInv(size, s, t, s'.lock, PcOf(s', t));
    }
  }

  lemma {:induction false} RunKeepsInv(size: nat, steps: seq<Step>)
    requires 0 < size
    ensures Inv(size, Exec(size, steps))
  {
    if steps != [] {
      RunKeepsInv(size, Front(steps));
      StepKeepsInv(size, Exec(size, Front(steps)), Last(steps));
    }
  }

  // ------------------------------------------------------------------
  // What holds in every run

  /** Every run is a linearizable bounded FIFO: the k-th delivery carries the k-th accepted length. */
  lemma RingRefinesFifo(size: nat, steps: seq<Step>)
    requires 0 < size
    ensures var h := Exec(size, steps).history;
            && Linearizable(size, h)
            && |Returned(h)| <= |Submitted(h)| <= |Returned(h)| + size
            && forall k :: 0 <= k < |Returned(h)| ==> Returned(h)[k].length == Submitted(h)[k].request.length
  {
    RunKeepsInv(size, steps);
    DeliveriesFollowSubmissions(size, Exec(size, steps).history);
  }

  /** In every run, each answer is exact for what was accepted and delivered before it took effect. */
  lemma RingAnswersExactly(size: nat, steps: seq<Step>, i: nat)
    requires 0 < size
    requires var h := Exec(size, steps).history; i < |h| && h[i].Effect?
    ensures var h := Exec(size, steps).history;
            var subs, done := Submitted(h[..i]), |Returned(h[..i])|;
            && (h[i].op.Submit? ==> h[i].result == if |subs| - done < size then Accepted else NoSpace)
            && (h[i].op.Complete? && |subs| == done ==> h[i].result == NoData)
            && (h[i].op.Complete? && |subs| != done ==>
                  && done < |subs| && h[i].result.Completed?
                  && h[i].result.length == subs[done].request.length
                  && h[i].result.latency == Now(h[..i]) - subs[done].stamp)
  {
    RunKeepsInv(size, steps);
    AnswersAreExact(size, Exec(size, steps).history, i);
  }

  /** No live descriptor is ever overwritten, not even while another thread is inside the ring. */
  lemma LiveDescriptorsAreIntact(size: nat, steps: seq<Step>, k: nat)
    requires 0 < size
    requires var h := Exec(size, steps).history;
             |Returned(h)| <= k < |Submitted(h)|
    ensures var s := Exec(size, steps);
            && k % size < |s.ring.desc|
            && Stored(s.ring.desc[k % size], Submitted(s.history)[k])
  {
    RunKeepsInv(size, steps);
    SlotIsModulo(k, size);
    var s := Exec(size, steps);
    assert Stored(s.ring.desc[Slot(k, size)], Submitted(s.history)[k]);
  }

  /** A reader that does not take the lock sees a fill level that is off by at most one. */
  lemma UnlockedCountIsBounded(size: nat, steps: seq<Step>)
    requires 0 < size
    ensures var s := Exec(size, steps);
            && 0 <= s.ring.count <= size
            && -1 <= s.ring.count - |Queue(s.history)| <= 1
            && (s.lock.None? ==> s.ring.count == |Queue(s.history)|)
  {
    RunKeepsInv(size, steps);
    DeliveriesFollowSubmissions(size, Exec(size, steps).history);
  }

  /** The ring's own `count`, integrated over the time that passes in a run. */
  function CountIntegral(size: nat, steps: seq<Step>): int
    requires 0 < size
  {
    if steps == [] then 0
    else
      var s, step := Exec(size, Front(steps)), Last(steps);
      CountIntegral(size, Front(steps)) + if step.Tick? && Enabled(s, step) then s.ring.count * step.ns else 0
  }

  /** The part of that time during which some thread held the lock. */
  function LockedTime(size: nat, steps: seq<Step>): nat
    requires 0 < size
  {
    if steps == [] then 0
    else
      var s, step := Exec(size, Front(steps)), Last(steps);
      LockedTime(size, Front(steps)) + if step.Tick? && Enabled(s, step) && s.lock.Some? then step.ns else 0
  }

  lemma OccupancySnoc(h: History, e: Event)
    ensures OccupancyIntegral(h + [e]) ==
            OccupancyIntegral(h) + if e.Elapse? then (|Submitted(h)| - |Returned(h)|) * e.ns else 0
  {
    assert Front(h + [e]) == h && Last(h + [e]) == e;
  }

  lemma StepOccupancy(s: State, step: Step)
    ensures OccupancyIntegral(Apply(s, step).history) ==
            OccupancyIntegral(s.history) +
            if step.Tick? && Enabled(s, step) then (|Submitted(s.history)| - |Returned(s.history)|) * step.ns else 0
  {
    if Enabled(s, step) {
      match step
      case Call(t, op) => OccupancySnoc(s.history, Invoke(t, op));
      case Tick(d) => OccupancySnoc(s.history, Elapse(d));
      case Run(t) =>
        var es := RunRecords(s, t);
        if es == [] {
          assert s.history + es == s.history;
        } else {
          assert es == [es[0]];
          OccupancySnoc(s.history, es[0]);
        }
    }
  }

  lemma RunRecords(s: State, t: nat) returns (es: History)
    requires Enabled(s, Run(t))
    ensures RunThread(s, t).history == s.history + es
    ensures |es| <= 1 && (es != [] ==> !es[0].Elapse?)
  {
    var pc := PcOf(s, t);
    es := if pc.Returning? then [Respond(t, pc.result)]
          else if AtMicroStep(s, t) then Recorded(t, MicroStep(s.ring, pc, s.now).effect)
          else [];
  }

  lemma OffByOne(count: int, queued: int, d: nat)
    requires -1 <= count - queued <= 1
    ensures 0 - d <= count * d - queued * d <= d
  {
    Distribute(count - queued, queued, d);
  }

  lemma TickGap(size: nat, steps: seq<Step>, d: nat)
    requires 0 < size
    ensures var s := Exec(size, steps);
            var gap := s.ring.count * d - (|Submitted(s.history)| - |Returned(s.history)|) * d;
            && 0 - d <= gap <= d
            && (s.lock.None? ==> gap == 0)
  {
    var s := Exec(size, steps);
    UnlockedCountIsBounded(size, steps);
    RingRefinesFifo(size, steps);
    DeliveriesFollowSubmissions(size, s.history);
    OffByOne(s.ring.count, |Submitted(s.history)| - |Returned(s.history)|, d);
  }

  /** `count` accounts for the occupancy up to the time that passes under the lock. */
  lemma {:induction false} CountTracksOccupancy(size: nat, steps: seq<Step>)
    requires 0 < size
    ensures var gap := CountIntegral(size, steps) - OccupancyIntegral(Exec(size, steps).history);
            0 - LockedTime(size, steps) <= gap <= LockedTime(size, steps)
  {
    if steps != [] {
      var s, step := Exec(size, Front(steps)), Last(steps);
      CountTracksOccupancy(size, Front(steps));
      StepOccupancy(s, step);
      if step.Tick? && Enabled(s, step) {
        TickGap(size, Front(steps), step.ns);
      }
    }
  }

  /**
   Latencies never underflow, and obey Little's law at every instant of the
   clock: exactly for the entries in flight, and for the ring's own `count` up
   to the time that passes under the lock.
   */
  lemma RunObeysLittlesLaw(size: nat, steps: seq<Step>)
    requires 0 < size
    ensures var s := Exec(size, steps);
            var accrued := LatencySum(Returned(s.history)) + Ages(Queue(s.history), s.now);
            && accrued == OccupancyIntegral(s.history)
            && 0 - LockedTime(size, steps) <= CountIntegral(size, steps) - accrued <= LockedTime(size, steps)
            && forall k :: 0 <= k < |Queue(s.history)| ==> Queue(s.history)[k].stamp <= s.now
  {
    RunKeepsInv(size, steps);
    LittlesLaw(size, Exec(size, steps).history);
    StampsAreOrdered(size, Exec(size, steps).history);
    CountTracksOccupancy(size, steps);
  }

  lemma IdleCounters(r: Ring, subs: nat, done: nat, refused: nat)
    requires CountersMatch(r, Idle, subs, done, refused)
    ensures r.count == r.submissions - r.completions
    ensures r.submissions == subs && r.completions == done && r.overruns == refused
    ensures r.head == r.submissions % |r.desc| && r.tail == r.completions % |r.desc|
  {
    SlotIsModulo(subs, |r.desc|);
    SlotIsModulo(done, |r.desc|);
  }

  /** Whenever the lock is free the counters agree with each other and with the history. */
  lemma CountersAtRest(size: nat, steps: seq<Step>)
    requires 0 < size && Exec(size, steps).lock.None?
    ensures var s := Exec(size, steps);
            && s.ring.count == s.ring.submissions - s.ring.completions
            && s.ring.head == s.ring.submissions % size
            && s.ring.tail == s.ring.completions % size
            && s.ring.submissions == |Submitted(s.history)|
            && s.ring.completions == |Returned(s.history)|
            && s.ring.submissions + s.ring.overruns + |Waiting(s.history)| == SubmitCalls(s.history)
  {
    RunKeepsInv(size, steps);
    var s := Exec(size, steps);
    IdleCounters(s.ring, |Submitted(s.history)|, |Returned(s.history)|, Rejected(s.history));
    SubmitCallsAreAccounted(size, s.history);
  }

  /** Once every thread has returned, each submit call was counted exactly once. */
  lemma SubmitCallsAtQuiescence(size: nat, steps: seq<Step>)
    requires 0 < size
    requires forall t: nat :: PcOf(Exec(size, steps), t) == Idle
    ensures var s := Exec(size, steps);
            s.ring.submissions + s.ring.overruns == SubmitCalls(s.history)
  {
    RunKeepsInv(size, steps);
    var s := Exec(size, steps);
    forall t: nat ensures PhaseOf(s.history, t) == Ready {
      assert PhaseOf(s.history, t) == PcPhase(PcOf(s, t));
    }
    assert Waiting(s.history) == {};
    assert s.lock.None?;
    CountersAtRest(size, steps);
  }

  // ------------------------------------------------------------------
  // No call can be stuck

  /** How many of its own steps a thread still needs. */
  function Remaining(pc: Pc): nat {
    match pc
    case Idle => 0
    case Returning(_, _) => 1
    case Unlocking(_, _) => 2
    case SubmitOverrun(_) => 3
    case SubmitTally(_) => 3
    case SubmitCount(_) => 4
    case SubmitHead(_) => 5
    case SubmitFill(_) => 6
    case SubmitCheck(_) => 7
    case SubmitLock(_) => 8
    case CompleteTally(_, _) => 3
    case CompleteCount(_, _) => 4
    case CompleteTail(_, _) => 5
    case CompleteMark(_, _) => 6
    case CompleteRead(_) => 7
    case CompleteCheck(_) => 8
    case CompleteLock(_) => 9
  }

  lemma RunIsProgress(s: State, t: nat)
    requires Enabled(s, Run(t))
    ensures Remaining(PcOf(RunThread(s, t), t)) < Remaining(PcOf(s, t))
  {
    if AtMicroStep(s, t) {
      MicroIsProgress(s.ring, PcOf(s, t), s.now);
    }
  }

  lemma MicroIsProgress(r: Ring, pc: Pc, now: nat)
    requires InCriticalSection(pc) && !pc.Unlocking?
    ensures Remaining(MicroStep(r, pc, now).pc) < Remaining(pc)
  {
  }

  /** A thread can only wait for the lock holder, which can always step; every step is progress. */
  lemma CallsMakeProgress(size: nat, steps: seq<Step>, t: nat)
    requires 0 < size && !PcOf(Exec(size, steps), t).Idle?
    ensures var s := Exec(size, steps);
            var runner := if Enabled(s, Run(t)) then t else if s.lock.Some? then s.lock.value else t;
            && Enabled(s, Run(runner))
            && Remaining(PcOf(Apply(s, Run(runner)), runner)) < Remaining(PcOf(s, runner))
  {
    RunKeepsInv(size, steps);
    var s := Exec(size, steps);
    if Enabled(s, Run(t)) {
      RunIsProgress(s, t);
    } else {
      assert InCriticalSection(PcOf(s, s.lock.value));
      RunIsProgress(s, s.lock.value);
    }
  }
}

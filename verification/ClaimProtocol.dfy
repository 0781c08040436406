/**
 The claim protocol of the Windows simulation, one step per access to shared
 state. Open tests and sets a device's `active` flag under the global lock, then
 allocates a handle outside it, and on failure clears the flag again without the
 lock. Close clears the flag under the lock and frees the handle afterwards.

 The fields `holder`, `closer` and `released` only record what happened; no step
 reads them.
 */
module ClaimProtocol {
  import opened Sequences
  import opened Wrappers

  const MAX_DEVICES: nat := 8

  type Handle = nat

  datatype OpenResult = Opened(handle: Handle) | ParamError | Busy | NoMemory

  datatype Pc =
    | Idle
    | OpenLock(device: nat)
    | OpenTest(device: nat)
    | OpenClaim(device: nat)
    | OpenRefuse(device: nat)
    | OpenLeave(device: nat)
    | OpenAlloc(device: nat)
    | OpenRollback(device: nat)
    | OpenDone(result: OpenResult)
    | CloseLock(handle: Handle, device: nat)
    | CloseClear(handle: Handle, device: nat)
    | CloseLeave(handle: Handle, device: nat)
    | CloseFree(handle: Handle, device: nat)
    | CloseDone

  /** Who stands for a device being in use: an open in flight, or a handle not yet closed. */
  datatype Claim = ByThread(tid: nat) | ByHandle(handle: Handle)

  datatype Block = Block(device: nat, closer: Option<nat>, released: bool)

  datatype State = State(
    active: seq<bool>,
    lock: Option<nat>,
    pcs: map<nat, Pc>,
    heap: map<Handle, Block>,
    nextHandle: Handle,
    holder: seq<Option<Claim>>,
    closed: multiset<Handle>)

  function Initial(): State {
    State(seq(MAX_DEVICES, _ => false), None, map[], map[], 0, seq(MAX_DEVICES, _ => None), multiset{})
  }

  function PcOf(s: State, t: nat): Pc {
    if t in s.pcs then s.pcs[t] else Idle
  }

  predicate InCriticalSection(pc: Pc) {
    pc.OpenTest? || pc.OpenClaim? || pc.OpenRefuse? || pc.OpenLeave? || pc.CloseClear? || pc.CloseLeave?
  }

  predicate IsClosing(pc: Pc) {
    pc.CloseLock? || pc.CloseClear? || pc.CloseLeave? || pc.CloseFree?
  }

  predicate IsOpening(pc: Pc) {
    || pc.OpenLock? || pc.OpenTest? || pc.OpenClaim? || pc.OpenRefuse? || pc.OpenLeave?
    || pc.OpenAlloc? || pc.OpenRollback?
  }

  // ------------------------------------------------------------------
  // Calls and steps

  function CallOpen(s: State, t: nat, device: int): State {
    s.(pcs := s.pcs[t := if 0 <= device < MAX_DEVICES then OpenLock(device) else OpenDone(ParamError)])
  }

  /** What close asks of its caller: the handle is live and nobody else is closing it. */
  predicate MayClose(s: State, h: Handle) {
    h in s.heap && s.heap[h].closer.None?
  }

  function CallClose(s: State, t: nat, h: Handle): State {
    var s' := s.(closed := s.closed + multiset{h});
    if h !in s.heap then s'
    else s'.(pcs := s.pcs[t := CloseLock(h, s.heap[h].device)], heap := s.heap[h := s.heap[h].(closer := Some(t))])
  }

  function Return(s: State, t: nat): State {
    s.(pcs := s.pcs[t := Idle])
  }

  function SetActive(s: State, d: nat, on: bool, who: Option<Claim>): State {
    if d < |s.active| && d < |s.holder|
    then s.(active := s.active[d := on], holder := s.holder[d := who]) else s
  }

  function At(s: State, t: nat, pc: Pc): State {
    s.(pcs := s.pcs[t := pc])
  }

  /** A thread that wants the lock steps only when it is free. */
  predicate CanStep(s: State, t: nat) {
    var pc := PcOf(s, t);
    && (IsOpening(pc) || IsClosing(pc))
    && (pc.OpenLock? || pc.CloseLock? ==> s.lock.None?)
  }

  /** One step of a thread inside open or close; `memory` says whether malloc succeeds. */
  function Step(s: State, t: nat, memory: bool): State
    requires CanStep(s, t)
  {
    match PcOf(s, t)
    case OpenLock(d) => At(s, t, OpenTest(d)).(lock := Some(t))
    case OpenTest(d) => At(s, t, if d < |s.active| && s.active[d] then OpenRefuse(d) else OpenClaim(d))
    case OpenRefuse(d) => At(s, t, OpenDone(Busy)).(lock := None)
    case OpenClaim(d) => At(SetActive(s, d, true, Some(ByThread(t))), t, OpenLeave(d))
    case OpenLeave(d) => At(s, t, OpenAlloc(d)).(lock := None)
    case OpenAlloc(d) =>
      if memory then
        At(s, t, OpenDone(Opened(s.nextHandle))).(
          heap := s.heap[s.nextHandle := Block(d, None, false)],
          nextHandle := s.nextHandle + 1,
          holder := if d < |s.holder| then s.holder[d := Some(ByHandle(s.nextHandle))] else s.holder)
      else At(s, t, OpenRollback(d))
    case OpenRollback(d) => At(SetActive(s, d, false, None), t, OpenDone(NoMemory))
    case CloseLock(h, d) => At(s, t, CloseClear(h, d)).(lock := Some(t))
    case CloseClear(h, d) =>
      var s' := At(SetActive(s, d, false, None), t, CloseLeave(h, d));
      if h in s.heap then s'.(heap := s.heap[h := s.heap[h].(released := true)]) else s'
    case CloseLeave(h, d) => At(s, t, CloseFree(h, d)).(lock := None)
    case CloseFree(h, _) => At(s, t, CloseDone).(heap := s.heap - {h})
  }

  // ------------------------------------------------------------------
  // The invariant

  predicate IsClaim(s: State, c: Claim, d: nat) {
    match c
    case ByThread(t) =>
      var pc := PcOf(s, t);
      (pc.OpenLeave? || pc.OpenAlloc? || pc.OpenRollback?) && pc.device == d
    case ByHandle(h) => h in s.heap && s.heap[h].device == d && !s.heap[h].released
  }

  /** A claim on a device is recorded as its holder, and the flag says whether there is one. */
  ghost predicate ClaimsMatch(s: State) {
    && |s.active| == |s.holder| == MAX_DEVICES
    && (forall d :: 0 <= d < MAX_DEVICES ==> (s.active[d] <==> s.holder[d].Some?))
    && (forall c: Claim, d: nat :: IsClaim(s, c, d) ==> d < MAX_DEVICES && s.holder[d] == Some(c))
    && (forall d :: 0 <= d < MAX_DEVICES && s.holder[d].Some? ==> IsClaim(s, s.holder[d].value, d))
  }

  ghost predicate Exclusive(s: State) {
    forall t: nat :: InCriticalSection(PcOf(s, t)) <==> s.lock == Some(t)
  }

  /** A thread inside open names a real device; about to claim it, it has seen the flag clear. */
  ghost predicate OpensMatch(s: State) {
    forall t: nat {:trigger PcOf(s, t)} ::
      var pc := PcOf(s, t);
      && (IsOpening(pc) ==> pc.device < MAX_DEVICES)
      && (pc.OpenClaim? ==> pc.device < |s.active| && !s.active[pc.device])
  }

  predicate ClosingBlock(s: State, t: nat, pc: Pc) {
    IsClosing(pc) ==>
      && pc.handle in s.heap
      && s.heap[pc.handle] == Block(pc.device, Some(t), pc.CloseLeave? || pc.CloseFree?)
  }

  /** A handle's closer is inside close with it, and the other way round. */
  ghost predicate ClosesMatch(s: State) {
    && (forall t: nat {:trigger PcOf(s, t)} :: ClosingBlock(s, t, PcOf(s, t)))
    && (forall h :: h in s.heap ==>
          match s.heap[h].closer
          case None => !s.heap[h].released
          case Some(t) => IsClosing(PcOf(s, t)) && PcOf(s, t).handle == h)
  }

  /** Every handle ever allocated is below `nextHandle`; those closed were closed exactly once. */
  ghost predicate HandlesMatch(s: State) {
    && (forall h :: h in s.heap ==> h < s.nextHandle)
    && (forall h: nat :: s.closed[h] == if h < s.nextHandle && !MayClose(s, h) then 1 else 0)
  }

  ghost predicate Inv(s: State) {
    ClaimsMatch(s) && Exclusive(s) && OpensMatch(s) && ClosesMatch(s) && HandlesMatch(s)
  }

  lemma InitialInv()
    ensures Inv(Initial())
  {
  }

  lemma CallOpenKeepsInv(s: State, t: nat, device: int)
    requires Inv(s) && PcOf(s, t).Idle?
    ensures Inv(CallOpen(s, t, device))
  {
    var s' := CallOpen(s, t, device);
    assert forall u: nat :: u != t ==> PcOf(s', u) == PcOf(s, u);
    assert forall c: Claim, d: nat :: IsClaim(s', c, d) <==> IsClaim(s, c, d);
  }

  lemma ReturnKeepsInv(s: State, t: nat)
    requires Inv(s) && (PcOf(s, t).OpenDone? || PcOf(s, t).CloseDone?)
    ensures Inv(Return(s, t))
  {
    var s' := Return(s, t);
    assert forall u: nat :: u != t ==> PcOf(s', u) == PcOf(s, u);
    assert forall c: Claim, d: nat :: IsClaim(s', c, d) <==> IsClaim(s, c, d);
  }

  lemma CallCloseKeepsInv(s: State, t: nat, h: Handle)
    requires Inv(s) && PcOf(s, t).Idle? && MayClose(s, h)
    ensures Inv(CallClose(s, t, h))
  {
    var s' := CallClose(s, t, h);
    assert forall u: nat :: u != t ==> PcOf(s', u) == PcOf(s, u);
    assert forall c: Claim, d: nat :: IsClaim(s', c, d) <==> IsClaim(s, c, d);
    assert s.heap[h] == Block(s.heap[h].device, None, false);
  }

  /** Steps that move the thread, and possibly the lock, but no claim. */
  lemma OpenLockKeepsInv(s: State, t: nat, memory: bool)
    requires Inv(s) && CanStep(s, t) && (PcOf(s, t).OpenLock? || PcOf(s, t).OpenTest?)
    ensures Inv(Step(s, t, memory))
  {
    var s' := Step(s, t, memory);
    assert forall u: nat :: u != t ==> PcOf(s', u) == PcOf(s, u);
    assert forall c: Claim, d: nat :: IsClaim(s', c, d) <==> IsClaim(s, c, d);
  }

  lemma OpenLeaveKeepsInv(s: State, t: nat, memory: bool)
    requires Inv(s) && CanStep(s, t)
    requires var pc := PcOf(s, t); pc.OpenRefuse? || pc.OpenLeave? || (pc.OpenAlloc? && !memory)
    ensures Inv(Step(s, t, memory))
  {
    var s' := Step(s, t, memory);
    assert forall u: nat :: u != t ==> PcOf(s', u) == PcOf(s, u);
    assert forall c: Claim, d: nat :: IsClaim(s', c, d) <==> IsClaim(s, c, d);
  }

  lemma CloseMoveKeepsInv(s: State, t: nat, memory: bool)
    requires Inv(s) && CanStep(s, t) && (PcOf(s, t).CloseLock? || PcOf(s, t).CloseLeave?)
    ensures Inv(Step(s, t, memory))
  {
    var s' := Step(s, t, memory);
    assert forall u: nat :: u != t ==> PcOf(s', u) == PcOf(s, u);
    assert forall c: Claim, d: nat :: IsClaim(s', c, d) <==> IsClaim(s, c, d);
    assert ClosingBlock(s, t, PcOf(s, t));
  }

  lemma ClaimKeepsInv(s: State, t: nat, memory: bool)
    requires Inv(s) && CanStep(s, t) && PcOf(s, t).OpenClaim?
    ensures Inv(Step(s, t, memory))
  {
    var s', d := Step(s, t, memory), PcOf(s, t).device;
    assert forall u: nat :: u != t ==> PcOf(s', u) == PcOf(s, u);
    assert forall c: Claim, e: nat :: IsClaim(s', c, e) <==> IsClaim(s, c, e) || (c == ByThread(t) && e == d);
    assert s'.holder == s.holder[d := Some(ByThread(t))] && s'.active == s.active[d := true];
    assert forall u: nat :: PcOf(s, u).OpenClaim? ==> u == t;
  }

  /** The claim on a device gives way to another one, or to none. */
  lemma ClaimPasses(s: State, s': State, d: nat, c: Claim, next: Option<Claim>)
    requires ClaimsMatch(s) && d < MAX_DEVICES && IsClaim(s, c, d)
    requires s'.holder == s.holder[d := next] && s'.active == s.active[d := next.Some?]
    requires forall b: Claim, e: nat ::
               IsClaim(s', b, e) <==> (IsClaim(s, b, e) && b != c) || (Some(b) == next && e == d)
    ensures ClaimsMatch(s')
  {
    if next.Some? {
      assert IsClaim(s', next.value, d);
    }
  }

  lemma AllocKeepsInv(s: State, t: nat)
    requires Inv(s) && CanStep(s, t) && PcOf(s, t).OpenAlloc?
    ensures Inv(Step(s, t, true))
  {
    var s', d, h := Step(s, t, true), PcOf(s, t).device, s.nextHandle;
    assert forall u: nat :: u != t ==> PcOf(s', u) == PcOf(s, u);
    assert IsClaim(s, ByThread(t), d);
    assert forall c: Claim, e: nat ::
      IsClaim(s', c, e) <==> (IsClaim(s, c, e) && c != ByThread(t)) || (Some(c) == Some(ByHandle(h)) && e == d);
    assert s'.active == s.active[d := true];
    ClaimPasses(s, s', d, ByThread(t), Some(ByHandle(h)));
  }

  /** The rollback clears the flag without the lock; only the claim of its own thread is on the device. */
  lemma RollbackKeepsInv(s: State, t: nat, memory: bool)
    requires Inv(s) && CanStep(s, t) && PcOf(s, t).OpenRollback?
    ensures Inv(Step(s, t, memory))
  {
    var s', d := Step(s, t, memory), PcOf(s, t).device;
    assert forall u: nat :: u != t ==> PcOf(s', u) == PcOf(s, u);
    assert IsClaim(s, ByThread(t), d);
    assert forall c: Claim, e: nat :: IsClaim(s', c, e) <==> IsClaim(s, c, e) && c != ByThread(t);
    ClaimPasses(s, s', d, ByThread(t), None);
  }

  lemma ClearKeepsInv(s: State, t: nat, memory: bool)
    requires Inv(s) && CanStep(s, t) && PcOf(s, t).CloseClear?
    ensures Inv(Step(s, t, memory))
  {
    var s', d, h := Step(s, t, memory), PcOf(s, t).device, PcOf(s, t).handle;
    assert forall u: nat :: u != t ==> PcOf(s', u) == PcOf(s, u);
    assert ClosingBlock(s, t, PcOf(s, t));
    assert IsClaim(s, ByHandle(h), d);
    assert forall c: Claim, e: nat :: IsClaim(s', c, e) <==> IsClaim(s, c, e) && c != ByHandle(h);
    ClaimPasses(s, s', d, ByHandle(h), None);
  }

  lemma FreeKeepsInv(s: State, t: nat, memory: bool)
    requires Inv(s) && CanStep(s, t) && PcOf(s, t).CloseFree?
    ensures Inv(Step(s, t, memory))
  {
    var s', h := Step(s, t, memory), PcOf(s, t).handle;
    assert forall u: nat :: u != t ==> PcOf(s', u) == PcOf(s, u);
    assert ClosingBlock(s, t, PcOf(s, t));
    assert forall c: Claim, e: nat :: IsClaim(s', c, e) <==> IsClaim(s, c, e);
  }

  /** Every step of a thread inside open or close keeps the invariant. */
  lemma StepKeepsInv(s: State, t: nat, memory: bool)
    requires Inv(s) && CanStep(s, t)
    ensures Inv(Step(s, t, memory))
  {
    var pc := PcOf(s, t);
    if pc.OpenClaim? {
      ClaimKeepsInv(s, t, memory);
    } else if pc.OpenAlloc? && memory {
      AllocKeepsInv(s, t);
    } else if pc.OpenRollback? {
      RollbackKeepsInv(s, t, memory);
    } else if pc.CloseClear? {
      ClearKeepsInv(s, t, memory);
    } else if pc.CloseFree? {
      FreeKeepsInv(s, t, memory);
    } else if IsClosing(pc) {
      CloseMoveKeepsInv(s, t, memory);
    } else if pc.OpenLock? || pc.OpenTest? {
      OpenLockKeepsInv(s, t, memory);
    } else {
      OpenLeaveKeepsInv(s, t, memory);
    }
  }

  // ------------------------------------------------------------------
  // Runs: any threads opening devices and closing the handles they may close

  datatype Action =
    | Open(tid: nat, device: int)
    | Close(tid: nat, handle: Handle)
    | Run(tid: nat, memory: bool)
    | Leave(tid: nat)

  /** An action that is not enabled leaves the state alone. */
  function Apply(s: State, a: Action): State {
    match a
    case Open(t, d) => if PcOf(s, t).Idle? then CallOpen(s, t, d) else s
    case Close(t, h) => if PcOf(s, t).Idle? && MayClose(s, h) then CallClose(s, t, h) else s
    case Run(t, memory) => if CanStep(s, t) then Step(s, t, memory) else s
    case Leave(t) => if PcOf(s, t).OpenDone? || PcOf(s, t).CloseDone? then Return(s, t) else s
  }

  function Exec(actions: seq<Action>): State {
    if actions == [] then Initial() else Apply(Exec(Front(actions)), Last(actions))
  }

  lemma {:induction false} RunKeepsInv(actions: seq<Action>)
    ensures Inv(Exec(actions))
  {
    if actions == [] {
      InitialInv();
    } else {
      var s, a := Exec(Front(actions)), Last(actions);
      RunKeepsInv(Front(actions));
      if Apply(s, a) != s {
        match a
        case Open(t, d) => CallOpenKeepsInv(s, t, d);
        case Close(t, h) => CallCloseKeepsInv(s, t, h);
        case Run(t, memory) => StepKeepsInv(s, t, memory);
        case Leave(t) => ReturnKeepsInv(s, t);
      }
    }
  }

  /** In every run at most one claim is outstanding on a device, and the flag is set exactly when one is. */
  lemma OneClaimPerDevice(actions: seq<Action>, d: nat)
    requires d < MAX_DEVICES
    ensures var s := Exec(actions);
            && (forall c, c' :: IsClaim(s, c, d) && IsClaim(s, c', d) ==> c == c')
            && d < |s.active| && (s.active[d] <==> exists c :: IsClaim(s, c, d))
  {
    RunKeepsInv(actions);
    var s := Exec(actions);
    if s.active[d] {
      assert IsClaim(s, s.holder[d].value, d);
    }
  }

  /** Clearing the flag is right exactly when the one claim on the device is the closed handle's own. */
  lemma ClearIsRightIff(s: State, t: nat, c: Claim, memory: bool)
    requires CanStep(s, t) && PcOf(s, t).CloseClear?
    requires var d := PcOf(s, t).device;
             d < |s.active| && d < |s.holder| && forall c' :: IsClaim(s, c', d) <==> c' == c
    ensures var s', d := Step(s, t, memory), PcOf(s, t).device;
            (s'.active[d] <==> exists c' :: IsClaim(s', c', d)) <==> c == ByHandle(PcOf(s, t).handle)
  {
    var s', d, h := Step(s, t, memory), PcOf(s, t).device, PcOf(s, t).handle;
    assert forall u: nat :: u != t ==> PcOf(s', u) == PcOf(s, u);
    assert forall c' :: IsClaim(s', c', d) <==> IsClaim(s, c', d) && c' != ByHandle(h);
    assert IsClaim(s, c, d);
  }

  // ------------------------------------------------------------------
  // What open answers, under every interleaving

  /** The device a thread last called open for. */
  function Asked(actions: seq<Action>, t: nat): Option<int> {
    if actions == [] then None
    else NextAsked(PcOf(Exec(Front(actions)), t), Last(actions), t, Asked(Front(actions), t))
  }

  function NextAsked(pc: Pc, a: Action, t: nat, asked: Option<int>): Option<int> {
    if a.Open? && a.tid == t && pc.Idle? then Some(a.device) else asked
  }

  datatype Sight = Nothing | InUse | Free | OutOfMemory

  /** What that open has found out: the flag as it was under the lock, then how its allocation went. */
  function Seen(actions: seq<Action>, t: nat): Sight {
    if actions == [] then Nothing
    else NextSeen(Exec(Front(actions)), Last(actions), t, Seen(Front(actions), t))
  }

  function NextSeen(s: State, a: Action, t: nat, seen: Sight): Sight {
    var pc := PcOf(s, t);
    if a.tid != t then seen
    else if a.Open? && pc.Idle? then Nothing
    else if a.Run? && pc.OpenTest? && s.lock == Some(t) then
      (if pc.device < |s.active| && s.active[pc.device] then InUse else Free)
    else if a.Run? && pc.OpenAlloc? then (if a.memory then Free else OutOfMemory)
    else seen
  }

  predicate Answers(r: OpenResult, device: int, seen: Sight) {
    && (r.ParamError? <==> !(0 <= device < 8))
    && (r.Busy? <==> 0 <= device < 8 && seen == InUse)
    && (r.NoMemory? <==> 0 <= device < 8 && seen == OutOfMemory)
    && (r.Opened? <==> 0 <= device < 8 && seen == Free)
  }

  /** How far open has got agrees with what it was asked for and what it has seen. */
  predicate Remembers(pc: Pc, asked: Option<int>, seen: Sight) {
    && (IsOpening(pc) ==> pc.device < 8 && asked == Some(pc.device))
    && (pc.OpenLock? || pc.OpenTest? ==> seen == Nothing)
    && (pc.OpenRefuse? ==> seen == InUse)
    && (pc.OpenClaim? || pc.OpenLeave? || pc.OpenAlloc? ==> seen == Free)
    && (pc.OpenRollback? ==> seen == OutOfMemory)
    && (pc.OpenDone? ==> asked.Some? && Answers(pc.result, asked.value, seen))
  }

  lemma {:induction false} RunRemembers(actions: seq<Action>, t: nat)
    ensures Remembers(PcOf(Exec(actions), t), Asked(actions, t), Seen(actions, t))
  {
    if actions != [] {
      RunRemembers(Front(actions), t);
      RunKeepsInv(Front(actions));
      StepRemembers(Exec(Front(actions)), Last(actions), t, Asked(Front(actions), t), Seen(Front(actions), t));
    }
  }

  lemma StepRemembers(s: State, a: Action, t: nat, asked: Option<int>, seen: Sight)
    requires Exclusive(s) && Remembers(PcOf(s, t), asked, seen)
    ensures Remembers(PcOf(Apply(s, a), t), NextAsked(PcOf(s, t), a, t, asked), NextSeen(s, a, t, seen))
  {
    assert PcOf(s, t).OpenTest? ==> s.lock == Some(t);
    match a
    case Open(_, _) =>
    case Close(_, _) =>
    case Leave(_) =>
    case Run(u, memory) =>
      if CanStep(s, u) {
        if u == t {
          OpenStepRemembers(s, t, memory, asked, seen);
        } else {
          OthersStay(s, u, memory, t);
        }
      }
  }

  lemma OpenStepRemembers(s: State, t: nat, memory: bool, asked: Option<int>, seen: Sight)
    requires CanStep(s, t) && Remembers(PcOf(s, t), asked, seen)
    requires PcOf(s, t).OpenTest? ==> s.lock == Some(t)
    ensures Remembers(PcOf(Step(s, t, memory), t), asked, NextSeen(s, Run(t, memory), t, seen))
  {
  }

  lemma OthersStay(s: State, u: nat, memory: bool, t: nat)
    requires u != t && CanStep(s, u)
    ensures PcOf(Step(s, u, memory), t) == PcOf(s, t)
  {
  }

  /**
   Whatever other threads do, open answers truly: a bad id exactly for a device
   outside 0..7, busy exactly when the flag was set when it looked under the lock,
   no memory exactly when its allocation failed, and a handle otherwise.
   */
  lemma OpenAnswersTruly(actions: seq<Action>, t: nat)
    requires PcOf(Exec(actions), t).OpenDone?
    ensures Asked(actions, t).Some?
    ensures Answers(PcOf(Exec(actions), t).result, Asked(actions, t).value, Seen(actions, t))
  {
    RunRemembers(actions, t);
  }

  // ------------------------------------------------------------------
  // Undisturbed threads

  /** `n` steps of one thread, with memory to spare. */
  function Runs(s: State, t: nat, n: nat): State
    decreases n
  {
    if n == 0 then s else Runs(Apply(s, Run(t, true)), t, n - 1)
  }

  /** Up to its allocation, an open of a free device that nobody disturbs. */
  lemma OpenRuns(s: State, t: nat, d: nat)
    requires PcOf(s, t) == OpenLock(d) && s.lock.None? && d < |s.active| == |s.holder| && !s.active[d]
    ensures Runs(s, t, 4) == At(SetActive(s, d, true, Some(ByThread(t))), t, OpenAlloc(d))
  {
    var s1 := Apply(s, Run(t, true));
    assert s1 == At(s, t, OpenTest(d)).(lock := Some(t));
    var s2 := Apply(s1, Run(t, true));
    assert s2 == At(s, t, OpenClaim(d)).(lock := Some(t));
    var s3 := Apply(s2, Run(t, true));
    assert s3 == At(SetActive(s, d, true, Some(ByThread(t))), t, OpenLeave(d)).(lock := Some(t));
    var s4 := Apply(s3, Run(t, true));
    assert Runs(s, t, 4) == Runs(s1, t, 3) == Runs(s2, t, 2) == Runs(s3, t, 1) == s4;
  }

  /** A free device can be opened: an undisturbed open of it succeeds and leaves a handle nobody is closing. */
  lemma FreeDeviceOpens(s: State, t: nat, d: nat)
    requires PcOf(s, t).Idle? && s.lock.None?
    requires d < |s.active| == |s.holder| == MAX_DEVICES && !s.active[d]
    ensures var s' := Runs(Apply(s, Open(t, d)), t, 5);
            && PcOf(s', t) == OpenDone(Opened(s.nextHandle))
            && MayClose(s', s.nextHandle) && s'.heap[s.nextHandle].device == d
            && |s'.active| == MAX_DEVICES && s'.active[d]
  {
    var s0 := Apply(s, Open(t, d));
    OpenRuns(s0, t, d);
    RunsSplit(s0, t, 4, 1);
    var s4 := Runs(s0, t, 4);
    assert PcOf(s4, t) == OpenAlloc(d);
    assert Runs(s4, t, 1) == Apply(s4, Run(t, true));
  }

  /** An undisturbed open of a device in use is refused as busy and changes nothing. */
  lemma BusyDeviceRefuses(s: State, t: nat, d: nat)
    requires PcOf(s, t).Idle? && s.lock.None? && d < |s.active| == MAX_DEVICES && s.active[d]
    ensures var s' := Runs(Apply(s, Open(t, d)), t, 3);
            && PcOf(s', t) == OpenDone(Busy)
            && s' == At(s, t, OpenDone(Busy))
  {
    var s0 := Apply(s, Open(t, d));
    var s1 := Apply(s0, Run(t, true));
    assert s1 == At(s, t, OpenTest(d)).(lock := Some(t));
    var s2 := Apply(s1, Run(t, true));
    assert s2 == At(s, t, OpenRefuse(d)).(lock := Some(t));
    var s3 := Apply(s2, Run(t, true));
    assert Runs(s0, t, 3) == Runs(s1, t, 2) == Runs(s2, t, 1) == s3;
  }

  /** An undisturbed open that gets no memory says so and leaves the device free again. */
  lemma FailedOpenRollsBack(s: State, t: nat, d: nat)
    requires PcOf(s, t).Idle? && s.lock.None?
    requires d < |s.active| == |s.holder| == MAX_DEVICES && !s.active[d] && s.holder[d].None?
    ensures var s' := Apply(Apply(Runs(Apply(s, Open(t, d)), t, 4), Run(t, false)), Run(t, false));
            && PcOf(s', t) == OpenDone(NoMemory)
            && s' == At(s, t, OpenDone(NoMemory))
  {
    var s0 := Apply(s, Open(t, d));
    OpenRuns(s0, t, d);
    var s4 := Runs(s0, t, 4);
    AllocFails(s4, t, d);
    assert s.active[d := true][d := false] == s.active;
    assert s.holder[d := Some(ByThread(t))][d := None] == s.holder;
  }

  lemma AllocFails(s: State, t: nat, d: nat)
    requires PcOf(s, t) == OpenAlloc(d)
    ensures Apply(Apply(s, Run(t, false)), Run(t, false)) == At(SetActive(s, d, false, None), t, OpenDone(NoMemory))
  {
    var s1 := Apply(s, Run(t, false));
    assert s1 == At(s, t, OpenRollback(d));
  }

  /** A device id outside 0..7 is refused at once. */
  lemma BadIdIsRefused(s: State, t: nat, device: int)
    requires PcOf(s, t).Idle?
    ensures !(0 <= device < 8) <==> Apply(s, Open(t, device)) == At(s, t, OpenDone(ParamError))
  {
    var s' := Apply(s, Open(t, device));
    assert PcOf(s', t).OpenDone? <==> !(0 <= device < 8);
    assert PcOf(At(s, t, OpenDone(ParamError)), t).OpenDone?;
  }

  lemma {:induction false} RunsSplit(s: State, t: nat, m: nat, n: nat)
    ensures Runs(s, t, m + n) == Runs(Runs(s, t, m), t, n)
    decreases m
  {
    if m != 0 {
      RunsSplit(Apply(s, Run(t, true)), t, m - 1, n);
    }
  }

  // ------------------------------------------------------------------
  // The discipline on close is needed

  lemma ClearRuns(s: State, t: nat, h: Handle, d: nat)
    requires PcOf(s, t) == CloseLock(h, d) && s.lock.None? && h in s.heap
    ensures Runs(s, t, 3) ==
            At(SetActive(s, d, false, None), t, CloseFree(h, d)).(heap := s.heap[h := s.heap[h].(released := true)])
  {
    var s1 := Apply(s, Run(t, true));
    assert s1 == At(s, t, CloseClear(h, d)).(lock := Some(t));
    var s2 := Apply(s1, Run(t, true));
    assert PcOf(s2, t) == CloseLeave(h, d) && s2.lock == Some(t);
    var s3 := Apply(s2, Run(t, true));
    assert Runs(s, t, 3) == Runs(s1, t, 2) == Runs(s2, t, 1) == s3;
  }

  /** An undisturbed close frees the device and the handle, and nothing else. */
  lemma CloseFrees(s: State, t: nat, h: Handle)
    requires PcOf(s, t).Idle? && s.lock.None? && MayClose(s, h) && s.heap[h].device < |s.active| == |s.holder|
    ensures var s', d := Runs(Apply(s, Close(t, h)), t, 4), s.heap[h].device;
            && PcOf(s', t) == CloseDone && s'.lock.None?
            && s'.active == s.active[d := false] && s'.heap == s.heap - {h}
            && forall u: nat :: u != t ==> PcOf(s', u) == PcOf(s, u)
  {
    var s0, d := Apply(s, Close(t, h)), s.heap[h].device;
    ClearRuns(s0, t, h, d);
    RunsSplit(s0, t, 3, 1);
    var s3 := Runs(s0, t, 3);
    assert PcOf(s3, t) == CloseFree(h, d);
    assert Runs(s3, t, 1) == Apply(s3, Run(t, true));
  }

  /** Thread 0 has opened device 0 and is back. */
  function OpenedOnce(): State {
    Apply(Runs(Apply(Initial(), Open(0, 0)), 0, 5), Leave(0))
  }

  /** Threads 0 and 1 then both close its handle, whatever close asks of its callers. */
  function ClosedTwice(): State {
    CallClose(CallClose(OpenedOnce(), 0, 0), 1, 0)
  }

  /** Thread 0 clears the flag, thread 2 claims the device that is free now, and thread 1 clears the flag. */
  function ClearedTwice(): State {
    Runs(Runs(Apply(Runs(ClosedTwice(), 0, 3), Open(2, 0)), 2, 4), 1, 3)
  }

  lemma OpenedOnceIs()
    ensures var s := OpenedOnce();
            && s.lock.None? && PcOf(s, 0).Idle? && PcOf(s, 1).Idle? && PcOf(s, 2).Idle?
            && |s.active| == |s.holder| == MAX_DEVICES
            && 0 in s.heap && s.heap[0].device == 0
  {
    var s0 := Apply(Initial(), Open(0, 0));
    OpenRuns(s0, 0, 0);
    RunsSplit(s0, 0, 4, 1);
    var s4 := Runs(s0, 0, 4);
    assert PcOf(s4, 0) == OpenAlloc(0) && s4.lock.None? && s4.nextHandle == 0;
    assert Runs(s4, 0, 1) == Apply(s4, Run(0, true));
  }

  /** A handle closed twice loses another thread's claim: the device is claimed and looks free. */
  lemma DoubleCloseLosesClaim()
    ensures var s := ClearedTwice();
            |s.active| == MAX_DEVICES && !s.active[0] && IsClaim(s, ByThread(2), 0)
  {
    OpenedOnceIs();
    var s := ClosedTwice();
    assert PcOf(s, 0) == CloseLock(0, 0) && PcOf(s, 1) == CloseLock(0, 0) && s.lock.None?;
    ClearRuns(s, 0, 0, 0);
    var s1 := Apply(Runs(s, 0, 3), Open(2, 0));
    assert PcOf(s1, 2) == OpenLock(0) && PcOf(s1, 1) == CloseLock(0, 0);
    OpenRuns(s1, 2, 0);
    var s2 := Runs(s1, 2, 4);
    assert PcOf(s2, 1) == CloseLock(0, 0);
    ClearRuns(s2, 1, 0, 0);
  }
}

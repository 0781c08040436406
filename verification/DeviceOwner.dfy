/**
 The move-only C++ `Device` on top of the claim protocol. Any number of threads
 construct, move and destroy Device objects; each in-flight member function has
 its objects to itself, as C++ requires, but the steps of open and close that it
 causes interleave freely with those of other threads.

 `keeper` and `user` only record what happened: who is responsible for a handle,
 and which thread's member function is using an object.
 */
module DeviceOwner {
  import opened Sequences
  import opened Wrappers
  import opened P = ClaimProtocol

  type Obj = nat

  /** A member function waiting for open or close to return. */
  datatype Work = Resting | Constructing(obj: Obj) | Destroying(obj: Obj) | Assigning(obj: Obj, src: Obj)

  datatype Keeper = KeptByObject(obj: Obj) | KeptByThread(tid: nat)

  datatype World = World(
    proto: P.State,
    objects: map<Obj, Option<Handle>>,
    work: map<nat, Work>,
    user: map<Obj, nat>,
    keeper: map<Handle, Keeper>,
    misused: bool)

  datatype Op =
    | Construct(tid: nat, obj: Obj, device: int)
    | MoveConstruct(tid: nat, obj: Obj, src: Obj)
    | MoveAssign(tid: nat, obj: Obj, src: Obj)
    | Destroy(tid: nat, obj: Obj)
    | Advance(tid: nat, memory: bool)
    | Finish(tid: nat)

  function Start(): World {
    World(P.Initial(), map[], map[], map[], map[], false)
  }

  function WorkOf(w: World, t: nat): Work {
    if t in w.work then w.work[t] else Resting
  }

  predicate Available(w: World, o: Obj) {
    o in w.objects && o !in w.user
  }

  predicate Unused(w: World, o: Obj) {
    o !in w.objects && o !in w.user
  }

  /** Close as the wrapper calls it: unconditionally. A call the protocol forbids is noted. */
  function IssueClose(w: World, t: nat, h: Handle): World {
    w.(proto := P.CallClose(w.proto, t, h), misused := w.misused || !P.MayClose(w.proto, h))
  }

  /** A member function that must close its object's handle before it can go on. */
  function Closing(w: World, t: nat, o: Obj, work: Work): World
    requires o in w.objects && w.objects[o].Some?
  {
    IssueClose(w, t, w.objects[o].value).(
      work := w.work[t := work],
      user := if work.Assigning? then w.user[o := t][work.src := t] else w.user[o := t])
  }

  /** `dst.handle_ = src.handle_; src.handle_ = nullptr;` */
  function TakeOver(w: World, dst: Obj, src: Obj): World
    requires src in w.objects
  {
    var h := w.objects[src];
    w.(objects := w.objects[dst := h][src := None],
       keeper := if h.Some? then w.keeper[h.value := KeptByObject(dst)] else w.keeper)
  }

  function Release(w: World, t: nat, objs: set<Obj>): World {
    w.(work := w.work[t := Resting], user := w.user - objs, proto := P.Return(w.proto, t))
  }

  function ApplyAdvance(w: World, t: nat, memory: bool): World
    requires P.CanStep(w.proto, t)
  {
    var p := P.Step(w.proto, t, memory);
    var pc := P.PcOf(p, t);
    w.(proto := p,
       keeper := if pc.OpenDone? && pc.result.Opened? then w.keeper[pc.result.handle := KeptByThread(t)] else w.keeper)
  }

  function ApplyFinish(w: World, t: nat): World {
    var pc := P.PcOf(w.proto, t);
    match WorkOf(w, t)
    case Constructing(o) =>
      if pc.OpenDone? then
        var w' := Release(w, t, {o});
        // an open that failed throws, and the object never comes into being
        if pc.result.Opened?
        then w'.(objects := w.objects[o := Some(pc.result.handle)],
                 keeper := w.keeper[pc.result.handle := KeptByObject(o)])
        else w'
      else w
    case Destroying(o) =>
      if pc.CloseDone? then Release(w, t, {o}).(objects := w.objects - {o}) else w
    case Assigning(dst, src) =>
      if pc.CloseDone? && src in w.objects then Release(TakeOver(w, dst, src), t, {dst, src}) else w
    case Resting => w
  }

  /** An operation that is not enabled leaves the world alone. */
  function Apply(w: World, op: Op): World {
    match op
    case Construct(t, o, d) =>
      if WorkOf(w, t).Resting? && Unused(w, o)
      then w.(proto := P.CallOpen(w.proto, t, d), work := w.work[t := Constructing(o)], user := w.user[o := t])
      else w
    case MoveConstruct(t, o, src) =>
      if WorkOf(w, t).Resting? && Unused(w, o) && Available(w, src) then TakeOver(w, o, src) else w
    case MoveAssign(t, dst, src) =>
      if !(WorkOf(w, t).Resting? && Available(w, dst) && Available(w, src)) || dst == src then w
      else if w.objects[dst].None? then TakeOver(w, dst, src)
      else Closing(w, t, dst, Assigning(dst, src))
    case Destroy(t, o) =>
      if !(WorkOf(w, t).Resting? && Available(w, o)) then w
      else if w.objects[o].None? then w.(objects := w.objects - {o})
      else Closing(w, t, o, Destroying(o))
    case Advance(t, memory) =>
      if P.CanStep(w.proto, t) then ApplyAdvance(w, t, memory) else w
    case Finish(t) => ApplyFinish(w, t)
  }

  function Exec(ops: seq<Op>): World {
    if ops == [] then Start() else Apply(Exec(Front(ops)), Last(ops))
  }

  // ------------------------------------------------------------------
  // The invariant

  predicate Mentions(work: Work, o: Obj) {
    !work.Resting? && (work.obj == o || (work.Assigning? && work.src == o))
  }

  /** The object's handle is being closed on its behalf. */
  predicate BeingClosed(w: World, o: Obj) {
    o in w.user &&
    var work := WorkOf(w, w.user[o]);
    (work.Destroying? || work.Assigning?) && work.obj == o
  }

  /** The object's old handle is on its way out, or gone. */
  predicate ClosingOld(w: World, o: Obj, pc: P.Pc) {
    && o in w.objects && w.objects[o].Some?
    && (P.IsClosing(pc) ==> pc.handle == w.objects[o].value)
    && (pc.CloseDone? ==> w.objects[o].value !in w.proto.heap)
    && (P.IsClosing(pc) || pc.CloseDone?)
  }

  /** A thread's protocol state fits the member function it is in. */
  predicate WorkFits(w: World, t: nat, work: Work, pc: P.Pc) {
    match work
    case Resting => pc.Idle?
    case Constructing(o) => o !in w.objects && (P.IsOpening(pc) || pc.OpenDone?)
    case Destroying(o) => ClosingOld(w, o, pc)
    case Assigning(dst, src) => dst != src && src in w.objects && ClosingOld(w, dst, pc)
  }

  ghost predicate WorksFit(w: World) {
    forall t: nat {:trigger WorkOf(w, t)} :: WorkFits(w, t, WorkOf(w, t), P.PcOf(w.proto, t))
  }

  ghost predicate UsersMatch(w: World) {
    forall t: nat, o: Obj :: Mentions(WorkOf(w, t), o) <==> (o in w.user && w.user[o] == t)
  }

  ghost predicate WorkMatches(w: World) {
    WorksFit(w) && UsersMatch(w)
  }

  predicate KeptBy(w: World, h: Handle, k: Keeper) {
    match k
    case KeptByObject(o) => o in w.objects && w.objects[o] == Some(h)
    case KeptByThread(t) => P.PcOf(w.proto, t) == P.OpenDone(P.Opened(h))
  }

  ghost predicate HandlesKept(w: World) {
    forall h :: h in w.proto.heap ==> h in w.keeper && KeptBy(w, h, w.keeper[h])
  }

  ghost predicate ObjectsKeep(w: World) {
    forall o :: o in w.objects && w.objects[o].Some? ==>
      var h := w.objects[o].value;
      && h < w.proto.nextHandle && h in w.keeper && w.keeper[h] == KeptByObject(o)
      && (BeingClosed(w, o) || P.MayClose(w.proto, h))
  }

  ghost predicate ThreadsKeep(w: World) {
    forall t: nat {:trigger P.PcOf(w.proto, t)} ::
      var pc := P.PcOf(w.proto, t);
      pc.OpenDone? && pc.result.Opened? ==>
        var h := pc.result.handle;
        P.MayClose(w.proto, h) && h in w.keeper && w.keeper[h] == KeptByThread(t)
  }

  /** Every live handle has one keeper, and every object or thread holding a handle is its keeper. */
  ghost predicate KeepersMatch(w: World) {
    HandlesKept(w) && ObjectsKeep(w) && ThreadsKeep(w)
  }

  ghost predicate Inv(w: World) {
    P.Inv(w.proto) && WorkMatches(w) && KeepersMatch(w) && !w.misused
  }

  lemma StartInv()
    ensures Inv(Start())
  {
    P.InitialInv();
  }

  // ------------------------------------------------------------------
  // Each operation keeps it

  lemma ConstructKeepsWork(w: World, t: nat, o: Obj, d: int)
    requires WorkMatches(w) && WorkOf(w, t).Resting? && Unused(w, o)
    ensures WorkMatches(Apply(w, Construct(t, o, d)))
  {
    var w' := Apply(w, Construct(t, o, d));
    assert forall u: nat :: u != t ==> P.PcOf(w'.proto, u) == P.PcOf(w.proto, u) && WorkOf(w', u) == WorkOf(w, u);
    assert forall p :: !Mentions(WorkOf(w, t), p);
    assert UsersMatch(w');
  }

  lemma ConstructKeepsKeepers(w: World, t: nat, o: Obj, d: int)
    requires KeepersMatch(w) && UsersMatch(w) && WorkOf(w, t).Resting? && Unused(w, o)
    requires P.PcOf(w.proto, t).Idle?
    ensures KeepersMatch(Apply(w, Construct(t, o, d)))
  {
    var w' := Apply(w, Construct(t, o, d));
    assert forall u: nat :: u != t ==> P.PcOf(w'.proto, u) == P.PcOf(w.proto, u) && WorkOf(w', u) == WorkOf(w, u);
    assert forall p :: !Mentions(WorkOf(w, t), p);
    assert forall p :: BeingClosed(w', p) <==> BeingClosed(w, p);
  }

  lemma ConstructKeepsInv(w: World, t: nat, o: Obj, d: int)
    requires Inv(w) && WorkOf(w, t).Resting? && Unused(w, o)
    ensures Inv(Apply(w, Construct(t, o, d)))
  {
    assert P.PcOf(w.proto, t).Idle?;
    ConstructKeepsWork(w, t, o, d);
    ConstructKeepsKeepers(w, t, o, d);
    P.CallOpenKeepsInv(w.proto, t, d);
  }

  lemma TakeOverKeepsKeepers(w: World, dst: Obj, src: Obj)
    requires KeepersMatch(w)
    requires src in w.objects && dst != src
    requires dst in w.objects && w.objects[dst].Some? ==> w.objects[dst].value !in w.proto.heap
    requires !BeingClosed(w, src)
    ensures KeepersMatch(TakeOver(w, dst, src))
  {
    var w' := TakeOver(w, dst, src);
    assert forall p :: BeingClosed(w', p) <==> BeingClosed(w, p);
    assert HandlesKept(w');
    assert ObjectsKeep(w');
  }

  lemma MoveKeepsWork(w: World, dst: Obj, src: Obj)
    requires WorkMatches(w) && Available(w, src) && dst != src && dst !in w.user
    ensures WorkMatches(TakeOver(w, dst, src))
  {
    var w' := TakeOver(w, dst, src);
    assert forall u: nat :: WorkOf(w', u) == WorkOf(w, u);
    forall u: nat ensures WorkFits(w', u, WorkOf(w', u), P.PcOf(w'.proto, u)) {
      assert !Mentions(WorkOf(w, u), dst) && !Mentions(WorkOf(w, u), src);
      assert WorkFits(w, u, WorkOf(w, u), P.PcOf(w.proto, u));
    }
  }

  lemma MoveKeepsInv(w: World, dst: Obj, src: Obj)
    requires Inv(w) && Available(w, src) && dst != src && dst !in w.user
    requires dst in w.objects ==> w.objects[dst].None?
    ensures Inv(TakeOver(w, dst, src))
  {
    TakeOverKeepsKeepers(w, dst, src);
    MoveKeepsWork(w, dst, src);
  }

  predicate ClosesFor(w: World, o: Obj, work: Work) {
    && Available(w, o) && w.objects[o].Some?
    && (work == Destroying(o) || (work.Assigning? && work.obj == o != work.src && Available(w, work.src)))
  }

  lemma ClosingKeepsUsers(w: World, t: nat, o: Obj, work: Work)
    requires UsersMatch(w) && WorkOf(w, t).Resting? && ClosesFor(w, o, work)
    ensures UsersMatch(Closing(w, t, o, work))
    ensures forall p :: BeingClosed(Closing(w, t, o, work), p) <==> BeingClosed(w, p) || p == o
  {
    var w' := Closing(w, t, o, work);
    assert forall u: nat :: u != t ==> WorkOf(w', u) == WorkOf(w, u);
    assert forall p :: !Mentions(WorkOf(w, t), p);
  }

  lemma ClosingFits(w: World, t: nat, o: Obj, work: Work)
    requires WorksFit(w) && ClosesFor(w, o, work)
    requires P.MayClose(w.proto, w.objects[o].value)
    ensures WorksFit(Closing(w, t, o, work))
  {
    var w' := Closing(w, t, o, work);
    assert forall u: nat :: u != t ==> P.PcOf(w'.proto, u) == P.PcOf(w.proto, u) && WorkOf(w', u) == WorkOf(w, u);
  }

  lemma ClosingKeepsKeepers(w: World, t: nat, o: Obj, work: Work)
    requires KeepersMatch(w) && UsersMatch(w) && WorkOf(w, t).Resting? && ClosesFor(w, o, work)
    requires P.PcOf(w.proto, t).Idle? && P.MayClose(w.proto, w.objects[o].value)
    ensures KeepersMatch(Closing(w, t, o, work))
  {
    var w', h := Closing(w, t, o, work), w.objects[o].value;
    ClosingKeepsUsers(w, t, o, work);
    assert forall u: nat :: u != t ==> P.PcOf(w'.proto, u) == P.PcOf(w.proto, u);
    assert forall g :: P.MayClose(w'.proto, g) <==> P.MayClose(w.proto, g) && g != h;
  }

  /** The close a member function issues is always one the protocol allows. */
  lemma ClosingKeepsInv(w: World, t: nat, o: Obj, work: Work)
    requires Inv(w) && WorkOf(w, t).Resting? && ClosesFor(w, o, work)
    ensures P.MayClose(w.proto, w.objects[o].value)
    ensures Inv(Closing(w, t, o, work))
  {
    assert P.PcOf(w.proto, t).Idle?;
    assert !BeingClosed(w, o);
    ClosingKeepsUsers(w, t, o, work);
    ClosingFits(w, t, o, work);
    ClosingKeepsKeepers(w, t, o, work);
    P.CallCloseKeepsInv(w.proto, t, w.objects[o].value);
  }

  lemma DropKeepsWork(w: World, o: Obj)
    requires WorkMatches(w) && Available(w, o)
    ensures WorkMatches(w.(objects := w.objects - {o}))
  {
    var w' := w.(objects := w.objects - {o});
    assert forall u: nat :: WorkOf(w', u) == WorkOf(w, u);
    forall u: nat ensures WorkFits(w', u, WorkOf(w', u), P.PcOf(w'.proto, u)) {
      assert !Mentions(WorkOf(w, u), o);
      assert WorkFits(w, u, WorkOf(w, u), P.PcOf(w.proto, u));
    }
  }

  lemma DropEmptyKeepsKeepers(w: World, o: Obj)
    requires KeepersMatch(w) && o in w.objects && w.objects[o].None?
    ensures KeepersMatch(w.(objects := w.objects - {o}))
  {
    var w' := w.(objects := w.objects - {o});
    assert forall p :: BeingClosed(w', p) <==> BeingClosed(w, p);
  }

  /** What one protocol step may do to other threads and to the handles. */
  ghost predicate StepsFor(s: P.State, s': P.State, t: nat) {
    && s.nextHandle <= s'.nextHandle
    && s.nextHandle !in s.heap
    && (forall u: nat :: u != t ==> P.PcOf(s', u) == P.PcOf(s, u))
    && (forall h :: P.MayClose(s, h) ==> P.MayClose(s', h))
    && (forall h :: h in s'.heap && h !in s.heap ==> P.PcOf(s', t) == P.OpenDone(P.Opened(h)))
    && !P.PcOf(s, t).OpenDone?
    && (P.PcOf(s', t).OpenDone? && P.PcOf(s', t).result.Opened? ==>
          P.PcOf(s', t).result.handle == s.nextHandle && P.MayClose(s', s.nextHandle))
  }

  lemma ProtocolStepsFor(s: P.State, t: nat, memory: bool)
    requires P.Inv(s) && P.CanStep(s, t)
    ensures StepsFor(s, P.Step(s, t, memory), t)
  {
    forall u: nat | u != t ensures P.PcOf(P.Step(s, t, memory), u) == P.PcOf(s, u) {
      P.OthersStay(s, t, memory, u);
    }
    ProtocolKeepsHandles(s, t, memory);
  }

  lemma ProtocolKeepsHandles(s: P.State, t: nat, memory: bool)
    requires P.Inv(s) && P.CanStep(s, t)
    ensures var s' := P.Step(s, t, memory);
            && (forall h :: P.MayClose(s, h) ==> P.MayClose(s', h))
            && (forall h :: h in s'.heap && h !in s.heap ==> P.PcOf(s', t) == P.OpenDone(P.Opened(h)))
  {
    assert P.ClosingBlock(s, t, P.PcOf(s, t));
  }

  lemma AdvanceFits(w: World, t: nat, memory: bool)
    requires WorkMatches(w) && P.CanStep(w.proto, t)
    ensures var p := P.Step(w.proto, t, memory);
            WorkFits(w.(proto := p), t, WorkOf(w, t), P.PcOf(p, t))
  {
    assert WorkFits(w, t, WorkOf(w, t), P.PcOf(w.proto, t));
  }

  lemma AdvanceKeepsWork(w: World, t: nat, memory: bool)
    requires WorkMatches(w) && ObjectsKeep(w) && P.CanStep(w.proto, t)
    requires StepsFor(w.proto, P.Step(w.proto, t, memory), t)
    ensures WorkMatches(ApplyAdvance(w, t, memory))
  {
    AdvanceFits(w, t, memory);
    ProtocolKeepsWork(w, ApplyAdvance(w, t, memory), t);
  }

  lemma ProtocolKeepsWork(w: World, w': World, t: nat)
    requires WorkMatches(w) && ObjectsKeep(w) && StepsFor(w.proto, w'.proto, t)
    requires w'.objects == w.objects && w'.work == w.work && w'.user == w.user
    requires WorkFits(w', t, WorkOf(w, t), P.PcOf(w'.proto, t))
    ensures WorkMatches(w')
  {
    assert forall u: nat :: WorkOf(w', u) == WorkOf(w, u);
    forall u: nat ensures WorkFits(w', u, WorkOf(w', u), P.PcOf(w'.proto, u)) {
      if u != t {
        OtherStillFits(w, w', t, u);
      }
    }
  }

  lemma OtherStillFits(w: World, w': World, t: nat, u: nat)
    requires WorksFit(w) && ObjectsKeep(w) && StepsFor(w.proto, w'.proto, t) && u != t
    requires w'.objects == w.objects
    ensures WorkFits(w', u, WorkOf(w, u), P.PcOf(w'.proto, u))
  {
    assert WorkFits(w, u, WorkOf(w, u), P.PcOf(w.proto, u));
  }

  lemma AdvanceKeepsKeepers(w: World, t: nat, p: P.State, keeper: map<Handle, Keeper>)
    requires KeepersMatch(w) && StepsFor(w.proto, p, t)
    requires var pc := P.PcOf(p, t);
             keeper == if pc.OpenDone? && pc.result.Opened?
                       then w.keeper[pc.result.handle := KeptByThread(t)] else w.keeper
    ensures KeepersMatch(w.(proto := p, keeper := keeper))
  {
    var w' := w.(proto := p, keeper := keeper);
    assert forall u: nat :: WorkOf(w', u) == WorkOf(w, u);
    assert forall o :: BeingClosed(w', o) <==> BeingClosed(w, o);
  }

  lemma AdvanceKeepsInv(w: World, t: nat, memory: bool)
    requires Inv(w) && P.CanStep(w.proto, t)
    ensures Inv(ApplyAdvance(w, t, memory))
  {
    var w' := ApplyAdvance(w, t, memory);
    ProtocolStepsFor(w.proto, t, memory);
    AdvanceKeepsWork(w, t, memory);
    AdvanceKeepsKeepers(w, t, w'.proto, w'.keeper);
    P.StepKeepsInv(w.proto, t, memory);
  }

  // ------------------------------------------------------------------
  // Member functions that return

  lemma FinishKeepsUsers(w: World, w': World, t: nat, objs: set<Obj>)
    requires UsersMatch(w)
    requires forall o :: o in objs <==> Mentions(WorkOf(w, t), o)
    requires w'.work == w.work[t := Resting] && w'.user == w.user - objs
    ensures UsersMatch(w')
  {
    assert forall u: nat :: u != t ==> WorkOf(w', u) == WorkOf(w, u);
  }

  lemma FinishKeepsWork(w: World, t: nat, objs: set<Obj>, objects: map<Obj, Option<Handle>>,
                        keeper: map<Handle, Keeper>)
    requires WorkMatches(w)
    requires forall o :: o in objs <==> Mentions(WorkOf(w, t), o)
    requires forall o :: o !in objs ==> (o in objects <==> o in w.objects)
    requires forall o :: o !in objs && o in objects && o in w.objects ==> objects[o] == w.objects[o]
    ensures WorkMatches(Release(w, t, objs).(objects := objects, keeper := keeper))
  {
    var w' := Release(w, t, objs).(objects := objects, keeper := keeper);
    FinishKeepsUsers(w, w', t, objs);
    assert forall u: nat :: u != t ==> P.PcOf(w'.proto, u) == P.PcOf(w.proto, u) && WorkOf(w', u) == WorkOf(w, u);
    forall u: nat ensures WorkFits(w', u, WorkOf(w', u), P.PcOf(w'.proto, u)) {
      if u != t {
        WorkIsDisjoint(w, t, u);
        assert WorkFits(w, u, WorkOf(w, u), P.PcOf(w.proto, u));
      }
    }
  }

  lemma WorkIsDisjoint(w: World, t: nat, u: nat)
    requires UsersMatch(w) && t != u
    ensures forall o :: Mentions(WorkOf(w, t), o) ==> !Mentions(WorkOf(w, u), o)
  {
    forall o | Mentions(WorkOf(w, t), o) ensures !Mentions(WorkOf(w, u), o) {
      assert w.user[o] == t;
    }
  }

  /** The threads and objects other than the finishing ones are closed or not as before. */
  lemma OthersBeingClosed(w: World, w': World, t: nat, objs: set<Obj>)
    requires UsersMatch(w)
    requires forall o :: o in objs <==> Mentions(WorkOf(w, t), o)
    requires w'.work == w.work[t := Resting] && w'.user == w.user - objs
    ensures forall p :: BeingClosed(w', p) <==> BeingClosed(w, p) && p !in objs
  {
    assert forall u: nat :: u != t ==> WorkOf(w', u) == WorkOf(w, u);
    forall p ensures BeingClosed(w', p) <==> BeingClosed(w, p) && p !in objs {
      if p in w.user && w.user[p] == t {
        assert Mentions(WorkOf(w, t), p);
      }
    }
  }

  /** Nothing changes for the keepers when a construction fails. */
  lemma FailedConstructKeepsKeepers(w: World, t: nat)
    requires KeepersMatch(w) && WorkMatches(w) && WorkOf(w, t).Constructing?
    requires P.PcOf(w.proto, t).OpenDone? && !P.PcOf(w.proto, t).result.Opened?
    ensures KeepersMatch(ApplyFinish(w, t))
  {
    var w', o := ApplyFinish(w, t), WorkOf(w, t).obj;
    assert WorkFits(w, t, WorkOf(w, t), P.PcOf(w.proto, t));
    OthersBeingClosed(w, w', t, {o});
    assert forall u: nat :: u != t ==> P.PcOf(w'.proto, u) == P.PcOf(w.proto, u);
  }

  /** The object takes the new handle over from the thread that opened it. */
  lemma HandOverKeepsKeepers(w: World, w': World, t: nat, o: Obj, h: Handle)
    requires KeepersMatch(w) && o !in w.objects && h < w.proto.nextHandle
    requires P.PcOf(w.proto, t) == P.OpenDone(P.Opened(h))
    requires w'.proto == P.Return(w.proto, t)
    requires w'.objects == w.objects[o := Some(h)] && w'.keeper == w.keeper[h := KeptByObject(o)]
    requires forall p :: p != o ==> (BeingClosed(w', p) <==> BeingClosed(w, p))
    ensures KeepersMatch(w')
  {
    assert forall u: nat :: u != t ==> P.PcOf(w'.proto, u) == P.PcOf(w.proto, u);
    assert P.MayClose(w.proto, h) && w.keeper[h] == KeptByThread(t);
    assert ObjectsKeep(w');
    assert ThreadsKeep(w');
  }

  lemma FinishConstructKeepsKeepers(w: World, t: nat)
    requires KeepersMatch(w) && WorkMatches(w)
    requires WorkOf(w, t).Constructing? && P.PcOf(w.proto, t).OpenDone?
    requires forall h :: h in w.proto.heap ==> h < w.proto.nextHandle
    ensures KeepersMatch(ApplyFinish(w, t))
  {
    var w', o, r := ApplyFinish(w, t), WorkOf(w, t).obj, P.PcOf(w.proto, t).result;
    assert WorkFits(w, t, WorkOf(w, t), P.PcOf(w.proto, t));
    if r.Opened? {
      OthersBeingClosed(w, w', t, {o});
      assert P.MayClose(w.proto, r.handle);
      HandOverKeepsKeepers(w, w', t, o, r.handle);
    } else {
      FailedConstructKeepsKeepers(w, t);
    }
  }

  lemma FinishDestroyKeepsKeepers(w: World, t: nat)
    requires KeepersMatch(w) && WorkMatches(w)
    requires WorkOf(w, t).Destroying? && P.PcOf(w.proto, t).CloseDone?
    ensures KeepersMatch(ApplyFinish(w, t))
  {
    var w', o := ApplyFinish(w, t), WorkOf(w, t).obj;
    assert WorkFits(w, t, WorkOf(w, t), P.PcOf(w.proto, t));
    OthersBeingClosed(w, w', t, {o});
    assert forall u: nat :: u != t ==> P.PcOf(w'.proto, u) == P.PcOf(w.proto, u);
    assert forall h :: P.MayClose(w'.proto, h) <==> P.MayClose(w.proto, h);
  }

  lemma FinishAssignKeepsKeepers(w: World, t: nat)
    requires KeepersMatch(w) && WorkMatches(w)
    requires WorkOf(w, t).Assigning? && P.PcOf(w.proto, t).CloseDone?
    ensures KeepersMatch(ApplyFinish(w, t))
  {
    var w', dst, src := ApplyFinish(w, t), WorkOf(w, t).obj, WorkOf(w, t).src;
    assert WorkFits(w, t, WorkOf(w, t), P.PcOf(w.proto, t));
    assert Mentions(WorkOf(w, t), src);
    TakeOverKeepsKeepers(w, dst, src);
    OthersBeingClosed(w, w', t, {dst, src});
    assert forall u: nat :: u != t ==> P.PcOf(w'.proto, u) == P.PcOf(w.proto, u);
    assert forall h :: P.MayClose(w'.proto, h) <==> P.MayClose(w.proto, h);
  }

  lemma FinishKeepsInv(w: World, t: nat)
    requires Inv(w)
    ensures Inv(ApplyFinish(w, t))
  {
    var w', pc, work := ApplyFinish(w, t), P.PcOf(w.proto, t), WorkOf(w, t);
    assert WorkFits(w, t, work, pc);
    if work.Constructing? && pc.OpenDone? {
      P.ReturnKeepsInv(w.proto, t);
      FinishConstructKeepsKeepers(w, t);
      FinishKeepsWork(w, t, {work.obj}, w'.objects, w'.keeper);
    } else if work.Destroying? && pc.CloseDone? {
      P.ReturnKeepsInv(w.proto, t);
      FinishDestroyKeepsKeepers(w, t);
      FinishKeepsWork(w, t, {work.obj}, w'.objects, w'.keeper);
    } else if work.Assigning? && pc.CloseDone? {
      P.ReturnKeepsInv(w.proto, t);
      FinishAssignKeepsKeepers(w, t);
      FinishKeepsWork(w, t, {work.obj, work.src}, w'.objects, w'.keeper);
    }
  }

  // ------------------------------------------------------------------
  // Every run

  lemma ApplyKeepsInv(w: World, op: Op)
    requires Inv(w)
    ensures Inv(Apply(w, op))
  {
    if Apply(w, op) != w {
      match op
      case Construct(t, o, d) => ConstructKeepsInv(w, t, o, d);
      case MoveConstruct(_, o, src) => MoveKeepsInv(w, o, src);
      case MoveAssign(t, dst, src) =>
        if w.objects[dst].None? {
          MoveKeepsInv(w, dst, src);
        } else {
          ClosingKeepsInv(w, t, dst, Assigning(dst, src));
        }
      case Destroy(t, o) =>
        if w.objects[o].None? {
          DropKeepsWork(w, o);
          DropEmptyKeepsKeepers(w, o);
        } else {
          ClosingKeepsInv(w, t, o, Destroying(o));
        }
      case Advance(t, memory) => AdvanceKeepsInv(w, t, memory);
      case Finish(t) => FinishKeepsInv(w, t);
    }
  }

  lemma {:induction false} RunKeepsInv(ops: seq<Op>)
    ensures Inv(Exec(ops))
  {
    if ops == [] {
      StartInv();
    } else {
      RunKeepsInv(Front(ops));
      ApplyKeepsInv(Exec(Front(ops)), Last(ops));
    }
  }

  /** Moves and destruction never close a handle twice or one that is not live, and no two objects share one. */
  lemma OwnershipIsExclusive(ops: seq<Op>)
    ensures var w := Exec(ops);
            && !w.misused
            && P.Inv(w.proto)
            && (forall h: nat :: w.proto.closed[h] <= 1)
            && forall o, o' :: o in w.objects && o' in w.objects && o != o' && w.objects[o].Some? ==>
                 w.objects[o] != w.objects[o']
  {
    RunKeepsInv(ops);
  }

  /**
   When every Device is gone and every thread is back, each handle was closed
   exactly once and every device is free.
   */
  lemma NothingLeaks(ops: seq<Op>)
    requires Exec(ops).objects == map[]
    requires forall t: nat :: WorkOf(Exec(ops), t).Resting?
    ensures var w := Exec(ops);
            && w.proto.heap == map[]
            && (forall h: nat :: w.proto.closed[h] == if h < w.proto.nextHandle then 1 else 0)
            && |w.proto.active| == P.MAX_DEVICES
            && (forall d :: 0 <= d < P.MAX_DEVICES ==> !w.proto.active[d])
            && w.proto.lock.None?
  {
    RunKeepsInv(ops);
    var w := Exec(ops);
    RestIsQuiet(w);
    assert forall h :: h !in w.proto.heap;
  }

  // ------------------------------------------------------------------
  // What each member function does to the objects

  /** All objects but those in `except` are the same. */
  ghost predicate SameBut(objects: map<Obj, Option<Handle>>, objects': map<Obj, Option<Handle>>, except: set<Obj>) {
    forall p :: p !in except ==>
      (p in objects' <==> p in objects) && (p in objects ==> objects'[p] == objects[p])
  }

  /** `dst` has what `src` had, and `src` is left empty. */
  ghost predicate Moved(objects: map<Obj, Option<Handle>>, objects': map<Obj, Option<Handle>>, dst: Obj, src: Obj) {
    && src in objects && dst in objects' && src in objects'
    && objects'[dst] == objects[src] && objects'[src].None?
    && SameBut(objects, objects', {dst, src})
  }

  /** A move construction hands the handle over and closes nothing. */
  lemma MoveConstructMoves(w: World, t: nat, o: Obj, src: Obj)
    requires WorkOf(w, t).Resting? && Unused(w, o) && Available(w, src)
    ensures var w' := Apply(w, MoveConstruct(t, o, src));
            Moved(w.objects, w'.objects, o, src) && w'.proto == w.proto
  {
  }

  /** Assigning a Device to itself changes nothing. */
  lemma SelfAssignmentKeeps(w: World, t: nat, o: Obj)
    ensures Apply(w, MoveAssign(t, o, o)) == w
  {
  }

  /** A move assignment to an empty Device is over at once. */
  lemma MoveAssignToEmpty(w: World, t: nat, dst: Obj, src: Obj)
    requires WorkOf(w, t).Resting? && Available(w, dst) && Available(w, src) && dst != src && w.objects[dst].None?
    ensures var w' := Apply(w, MoveAssign(t, dst, src));
            Moved(w.objects, w'.objects, dst, src) && w'.proto == w.proto
  {
  }

  /** Destroying an empty Device is over at once. */
  lemma DestroyEmpty(w: World, t: nat, o: Obj)
    requires WorkOf(w, t).Resting? && Available(w, o) && w.objects[o].None?
    ensures var w' := Apply(w, Destroy(t, o));
            o !in w'.objects && SameBut(w.objects, w'.objects, {o}) && w'.proto == w.proto
  {
  }

  /** Whatever any thread does next. */
  function Continue(w: World, ops: seq<Op>): World {
    if ops == [] then w else Apply(Continue(w, Front(ops)), Last(ops))
  }

  /** The objects a member function is using are as they were. */
  ghost predicate Keeps(w: World, w': World, work: Work) {
    forall o :: Mentions(work, o) ==>
      (o in w'.objects <==> o in w.objects) && (o in w.objects ==> w'.objects[o] == w.objects[o])
  }

  lemma UsedIsUnavailable(w: World, t: nat, o: Obj)
    requires UsersMatch(w) && Mentions(WorkOf(w, t), o)
    ensures o in w.user && w.user[o] == t
  {
  }

  lemma FinishKeepsOthers(w: World, t: nat, u: nat)
    requires UsersMatch(w) && u != t
    ensures var w' := ApplyFinish(w, u);
            WorkOf(w', t) == WorkOf(w, t) && Keeps(w, w', WorkOf(w, t))
  {
    var w' := ApplyFinish(w, u);
    forall o | Mentions(WorkOf(w, t), o)
      ensures (o in w'.objects <==> o in w.objects) && (o in w.objects ==> w'.objects[o] == w.objects[o])
    {
      UsedIsUnavailable(w, t, o);
      FinishTouchesOwn(w, u, o);
    }
    FinishKeepsOtherWork(w, t, u);
  }

  lemma FinishTouchesOwn(w: World, u: nat, o: Obj)
    requires !Mentions(WorkOf(w, u), o)
    ensures var w' := ApplyFinish(w, u);
            (o in w'.objects <==> o in w.objects) && (o in w.objects ==> w'.objects[o] == w.objects[o])
  {
  }

  lemma FinishKeepsOtherWork(w: World, t: nat, u: nat)
    requires u != t
    ensures WorkOf(ApplyFinish(w, u), t) == WorkOf(w, t)
  {
  }

  lemma WorkIsUndisturbed(w: World, t: nat, op: Op)
    requires UsersMatch(w) && !WorkOf(w, t).Resting? && op != Finish(t)
    ensures var w' := Apply(w, op);
            WorkOf(w', t) == WorkOf(w, t) && Keeps(w, w', WorkOf(w, t))
  {
    forall o | Mentions(WorkOf(w, t), o) ensures o in w.user {
      UsedIsUnavailable(w, t, o);
    }
    if op.Finish? {
      FinishKeepsOthers(w, t, op.tid);
    }
  }

  /** Until its own finish, a member function's objects are touched by nobody, whatever other threads do. */
  lemma {:induction false} WorkGoesOn(w: World, t: nat, ops: seq<Op>)
    requires Inv(w) && !WorkOf(w, t).Resting? && Finish(t) !in ops
    ensures var w' := Continue(w, ops);
            Inv(w') && WorkOf(w', t) == WorkOf(w, t) && Keeps(w, w', WorkOf(w, t))
  {
    if ops != [] {
      assert Finish(t) !in Front(ops) && Last(ops) in ops;
      WorkGoesOn(w, t, Front(ops));
      var v := Continue(w, Front(ops));
      WorkIsUndisturbed(v, t, Last(ops));
      ApplyKeepsInv(v, Last(ops));
    }
  }

  lemma FinishAssigns(w: World, t: nat, dst: Obj, src: Obj)
    requires Inv(w) && WorkOf(w, t) == Assigning(dst, src) && P.PcOf(w.proto, t).CloseDone?
    ensures dst in w.objects && src in w.objects && w.objects[dst].Some?
    ensures var w' := Apply(w, Finish(t));
            && Moved(w.objects, w'.objects, dst, src) && WorkOf(w', t).Resting?
            && w'.proto.heap == w.proto.heap && w.objects[dst].value !in w'.proto.heap
  {
    assert WorkFits(w, t, WorkOf(w, t), P.PcOf(w.proto, t));
  }

  /**
   A move assignment to a Device that holds a handle, from its call to its finish
   under every interleaving: the old handle is gone, the source's handle has
   moved, and the finish touches no other object.
   */
  lemma MoveAssignMoves(w: World, t: nat, dst: Obj, src: Obj, ops: seq<Op>)
    requires Inv(w) && WorkOf(w, t).Resting?
    requires Available(w, dst) && Available(w, src) && dst != src && w.objects[dst].Some?
    requires Finish(t) !in ops
    requires P.PcOf(Continue(Apply(w, MoveAssign(t, dst, src)), ops).proto, t).CloseDone?
    ensures var w1 := Continue(Apply(w, MoveAssign(t, dst, src)), ops);
            var w2 := Apply(w1, Finish(t));
            && Moved(w1.objects, w2.objects, dst, src) && w2.objects[dst] == w.objects[src]
            && w.objects[dst].value !in w2.proto.heap && WorkOf(w2, t).Resting?
  {
    var w0 := Apply(w, MoveAssign(t, dst, src));
    ApplyKeepsInv(w, MoveAssign(t, dst, src));
    assert WorkOf(w0, t) == Assigning(dst, src) && w0.objects == w.objects;
    assert Mentions(WorkOf(w0, t), dst) && Mentions(WorkOf(w0, t), src);
    WorkGoesOn(w0, t, ops);
    FinishAssigns(Continue(w0, ops), t, dst, src);
  }

  lemma FinishDestroys(w: World, t: nat, o: Obj)
    requires Inv(w) && WorkOf(w, t) == Destroying(o) && P.PcOf(w.proto, t).CloseDone?
    ensures o in w.objects && w.objects[o].Some?
    ensures var w' := Apply(w, Finish(t));
            && o !in w'.objects && SameBut(w.objects, w'.objects, {o}) && WorkOf(w', t).Resting?
            && w'.proto.heap == w.proto.heap && w.objects[o].value !in w'.proto.heap
  {
    assert WorkFits(w, t, WorkOf(w, t), P.PcOf(w.proto, t));
  }

  /** Likewise a destruction: the handle and the object are gone. */
  lemma DestroyRemoves(w: World, t: nat, o: Obj, ops: seq<Op>)
    requires Inv(w) && WorkOf(w, t).Resting? && Available(w, o) && w.objects[o].Some? && Finish(t) !in ops
    requires P.PcOf(Continue(Apply(w, Destroy(t, o)), ops).proto, t).CloseDone?
    ensures var w1 := Continue(Apply(w, Destroy(t, o)), ops);
            var w2 := Apply(w1, Finish(t));
            && o !in w2.objects && SameBut(w1.objects, w2.objects, {o})
            && w.objects[o].value !in w2.proto.heap && WorkOf(w2, t).Resting?
  {
    var w0 := Apply(w, Destroy(t, o));
    ApplyKeepsInv(w, Destroy(t, o));
    assert WorkOf(w0, t) == Destroying(o) && w0.objects == w.objects;
    assert Mentions(WorkOf(w0, t), o);
    WorkGoesOn(w0, t, ops);
    FinishDestroys(Continue(w0, ops), t, o);
  }

  /** Likewise a construction: a Device that holds what open returned, or none at all when open failed. */
  lemma ConstructGives(w: World, t: nat, o: Obj, d: int, ops: seq<Op>)
    requires Inv(w) && WorkOf(w, t).Resting? && Unused(w, o) && Finish(t) !in ops
    requires P.PcOf(Continue(Apply(w, Construct(t, o, d)), ops).proto, t).OpenDone?
    ensures var w1 := Continue(Apply(w, Construct(t, o, d)), ops);
            var w2, r := Apply(w1, Finish(t)), P.PcOf(w1.proto, t).result;
            && SameBut(w1.objects, w2.objects, {o}) && WorkOf(w2, t).Resting?
            && (if r.Opened? then o in w2.objects && w2.objects[o] == Some(r.handle) && P.MayClose(w2.proto, r.handle)
                else o !in w2.objects)
  {
    var w0 := Apply(w, Construct(t, o, d));
    ApplyKeepsInv(w, Construct(t, o, d));
    assert WorkOf(w0, t) == Constructing(o) && w0.objects == w.objects;
    assert Mentions(WorkOf(w0, t), o);
    WorkGoesOn(w0, t, ops);
    var w1 := Continue(w0, ops);
    assert WorkFits(w1, t, WorkOf(w1, t), P.PcOf(w1.proto, t));
  }

  // ------------------------------------------------------------------
  // Devices can be opened again

  function Advances(w: World, t: nat, n: nat): World
    decreases n
  {
    if n == 0 then w else Advances(Apply(w, Advance(t, true)), t, n - 1)
  }

  /** Constructing a Device, undisturbed and with memory to spare. */
  function Constructed(w: World, t: nat, o: Obj, d: nat): World {
    Apply(Advances(Apply(w, Construct(t, o, d)), t, 5), Finish(t))
  }

  lemma {:induction false} AdvancesRun(w: World, t: nat, n: nat)
    ensures var w' := Advances(w, t, n);
            && w'.proto == P.Runs(w.proto, t, n)
            && w'.objects == w.objects && w'.work == w.work && w'.user == w.user
    decreases n
  {
    if n != 0 {
      AdvancesRun(Apply(w, Advance(t, true)), t, n - 1);
    }
  }

  lemma ConstructSucceeds(w: World, t: nat, o: Obj, d: nat)
    requires WorkOf(w, t).Resting? && Unused(w, o) && P.PcOf(w.proto, t).Idle? && w.proto.lock.None?
    requires d < |w.proto.active| == |w.proto.holder| == P.MAX_DEVICES && !w.proto.active[d]
    ensures var w', h := Constructed(w, t, o, d), w.proto.nextHandle;
            && w'.objects == w.objects[o := Some(h)]
            && P.MayClose(w'.proto, h) && w'.proto.heap[h].device == d
            && |w'.proto.active| == P.MAX_DEVICES && w'.proto.active[d]
            && WorkOf(w', t).Resting?
  {
    var w1 := Apply(w, Construct(t, o, d));
    assert w1.proto == P.Apply(w.proto, P.Open(t, d));
    AdvancesRun(w1, t, 5);
    P.FreeDeviceOpens(w.proto, t, d);
    FinishConstructs(Advances(w1, t, 5), t, o, w.proto.nextHandle);
  }

  lemma FinishConstructs(w: World, t: nat, o: Obj, h: Handle)
    requires WorkOf(w, t) == Constructing(o) && P.PcOf(w.proto, t) == P.OpenDone(P.Opened(h))
    ensures var w' := Apply(w, Finish(t));
            && w'.objects == w.objects[o := Some(h)] && WorkOf(w', t).Resting?
            && w'.proto.heap == w.proto.heap && w'.proto.active == w.proto.active
  {
  }

  /** Nothing is in the way of a move assignment that nobody disturbs: four steps and its finish complete it. */
  lemma MoveAssignCompletes(w: World, t: nat, dst: Obj, src: Obj)
    requires Inv(w) && WorkOf(w, t).Resting? && w.proto.lock.None?
    requires Available(w, dst) && Available(w, src) && dst != src && w.objects[dst].Some?
    ensures var w' := Apply(Advances(Apply(w, MoveAssign(t, dst, src)), t, 4), Finish(t));
            && Moved(w.objects, w'.objects, dst, src)
            && w'.proto.heap == w.proto.heap - {w.objects[dst].value} && WorkOf(w', t).Resting?
  {
    var h := w.objects[dst].value;
    var work := Assigning(dst, src);
    ClosingKeepsInv(w, t, dst, work);
    var w0 := Apply(w, MoveAssign(t, dst, src));
    assert WorkFits(w, t, WorkOf(w, t), P.PcOf(w.proto, t));
    assert P.IsClaim(w.proto, P.ByHandle(h), w.proto.heap[h].device);
    assert w0.proto == P.Apply(w.proto, P.Close(t, h));
    P.CloseFrees(w.proto, t, h);
    AdvancesRun(w0, t, 4);
    var w4 := Advances(w0, t, 4);
    assert WorkOf(w4, t) == work;
    AssignsWhenClosed(w4, t, dst, src);
  }

  lemma AssignsWhenClosed(w: World, t: nat, dst: Obj, src: Obj)
    requires WorkOf(w, t) == Assigning(dst, src) && P.PcOf(w.proto, t).CloseDone?
    requires dst != src && src in w.objects
    ensures var w' := Apply(w, Finish(t));
            Moved(w.objects, w'.objects, dst, src) && WorkOf(w', t).Resting? && w'.proto.heap == w.proto.heap
  {
  }

  lemma RestIsQuiet(w: World)
    requires Inv(w) && forall t: nat :: WorkOf(w, t).Resting?
    ensures forall t: nat :: P.PcOf(w.proto, t).Idle?
    ensures w.proto.lock.None? && |w.proto.holder| == P.MAX_DEVICES
    ensures forall o :: o !in w.user
  {
    forall t: nat ensures P.PcOf(w.proto, t).Idle? {
      assert WorkFits(w, t, WorkOf(w, t), P.PcOf(w.proto, t));
    }
    assert forall o :: o in w.user ==> Mentions(WorkOf(w, w.user[o]), o);
  }

  /**
   When every Device is gone and every thread is back, every device can be opened
   again: any thread that constructs a Device for it gets one that holds a live
   handle of that device.
   */
  lemma EveryDeviceReopens(ops: seq<Op>, t: nat, o: Obj, d: nat)
    requires Exec(ops).objects == map[] && d < P.MAX_DEVICES
    requires forall u: nat :: WorkOf(Exec(ops), u).Resting?
    ensures var w, h := Constructed(Exec(ops), t, o, d), Exec(ops).proto.nextHandle;
            && w.objects == map[o := Some(h)]
            && P.MayClose(w.proto, h) && w.proto.heap[h].device == d
            && |w.proto.active| == P.MAX_DEVICES && w.proto.active[d]
            && WorkOf(w, t).Resting?
  {
    RunKeepsInv(ops);
    NothingLeaks(ops);
    RestIsQuiet(Exec(ops));
    ConstructSucceeds(Exec(ops), t, o, d);
  }
}

/**
 The specification of the descriptor ring: a bounded FIFO shared by any number
 of threads, judged only by the history of what the threads called, when each
 call took effect, what it answered, and how much time passed in between.
 Nothing here mentions slots, head, tail or locks.
 */
module BoundedFifo {
  import opened Sequences

  datatype Request = Request(bufferAddr: nat, length: nat, flags: nat)

  datatype Op = Submit(request: Request) | Complete(status: nat)

  /** `NoSpace` is -ENOSPC and `NoData` is -ENODATA. */
  datatype Result = Accepted | NoSpace | NoData | Completed(length: nat, latency: nat)

  datatype Event =
    | Invoke(tid: nat, op: Op)
    | Effect(tid: nat, op: Op, result: Result)
    | Respond(tid: nat, result: Result)
    | Elapse(ns: nat)

  datatype Entry = Entry(request: Request, stamp: nat)

  datatype Delivery = Delivery(length: nat, latency: nat)

  type History = seq<Event>

  /** Time since the start of the history. */
  function Now(h: History): nat {
    if h == [] then 0
    else Now(Front(h)) + if Last(h).Elapse? then Last(h).ns else 0
  }

  // ------------------------------------------------------------------
  // What a single-threaded bounded FIFO would answer

  function Queue(h: History): seq<Entry> {
    if h == [] then []
    else
      var q := Queue(Front(h));
      match Last(h)
      case Effect(_, Submit(r), Accepted) => q + [Entry(r, Now(Front(h)))]
      case Effect(_, Complete(_), Completed(_, _)) => if q == [] then [] else q[1..]
      case _ => q
  }

  predicate Fits(cap: nat, q: seq<Entry>, now: nat, e: Event) {
    match e
    case Effect(_, Submit(_), r) =>
      r == if |q| < cap then Accepted else NoSpace
    case Effect(_, Complete(_), r) =>
      if q == [] then r == NoData
      else r.Completed? && r.length == q[0].request.length && r.latency == now - q[0].stamp
    case _ => true
  }

  /** Every effect in the history is the answer the sequential FIFO gives. */
  predicate Behaves(cap: nat, h: History) {
    h == [] || (Behaves(cap, Front(h)) && Fits(cap, Queue(Front(h)), Now(Front(h)), Last(h)))
  }

  // ------------------------------------------------------------------
  // Each call takes effect exactly once, between its start and its return

  datatype Phase = Ready | Called(op: Op) | Took(op: Op, result: Result)

  function PhaseOf(h: History, t: nat): Phase {
    if h == [] then Ready
    else
      match Last(h)
      case Invoke(u, op) => if u == t then Called(op) else PhaseOf(Front(h), t)
      case Effect(u, op, r) => if u == t then Took(op, r) else PhaseOf(Front(h), t)
      case Respond(u, _) => if u == t then Ready else PhaseOf(Front(h), t)
      case Elapse(_) => PhaseOf(Front(h), t)
  }

  predicate InTurn(h: History, e: Event) {
    match e
    case Invoke(t, _) => PhaseOf(h, t) == Ready
    case Effect(t, op, _) => PhaseOf(h, t) == Called(op)
    case Respond(t, r) => PhaseOf(h, t).Took? && PhaseOf(h, t).result == r
    case Elapse(_) => true
  }

  predicate Disciplined(h: History) {
    h == [] || (Disciplined(Front(h)) && InTurn(Front(h), Last(h)))
  }

  /** Linearizability with respect to the bounded FIFO of capacity `cap`. */
  predicate Linearizable(cap: nat, h: History) {
    Behaves(cap, h) && Disciplined(h)
  }

  // ------------------------------------------------------------------
  // Projections of a history, independent of the replayed queue

  function Submitted(h: History): seq<Entry> {
    if h == [] then []
    else Submitted(Front(h)) +
         if Last(h).Effect? && Last(h).op.Submit? && Last(h).result.Accepted?
         then [Entry(Last(h).op.request, Now(Front(h)))] else []
  }

  function Returned(h: History): seq<Delivery> {
    if h == [] then []
    else Returned(Front(h)) +
         if Last(h).Effect? && Last(h).op.Complete? && Last(h).result.Completed?
         then [Delivery(Last(h).result.length, Last(h).result.latency)] else []
  }

  function Rejected(h: History): nat {
    if h == [] then 0
    else Rejected(Front(h)) +
         if Last(h).Effect? && Last(h).op.Submit? && Last(h).result.NoSpace? then 1 else 0
  }

  function SubmitCalls(h: History): nat {
    if h == [] then 0
    else SubmitCalls(Front(h)) + if Last(h).Invoke? && Last(h).op.Submit? then 1 else 0
  }

  /** How one more event changes each view of a history. */
  lemma Snoc(h: History, e: Event)
    ensures Front(h + [e]) == h && Last(h + [e]) == e
    ensures Now(h + [e]) == Now(h) + if e.Elapse? then e.ns else 0
    ensures Submitted(h + [e]) ==
            if e.Effect? && e.op.Submit? && e.result.Accepted?
            then Submitted(h) + [Entry(e.op.request, Now(h))] else Submitted(h)
    ensures Returned(h + [e]) ==
            if e.Effect? && e.op.Complete? && e.result.Completed?
            then Returned(h) + [Delivery(e.result.length, e.result.latency)] else Returned(h)
    ensures Rejected(h + [e]) ==
            Rejected(h) + if e.Effect? && e.op.Submit? && e.result.NoSpace? then 1 else 0
  {
    assert Front(h + [e]) == h && Last(h + [e]) == e;
  }

  lemma LinearizableSnoc(cap: nat, h: History, e: Event)
    ensures Linearizable(cap, h + [e]) <==>
            Linearizable(cap, h) && InTurn(h, e) && Fits(cap, Queue(h), Now(h), e)
  {
    assert Front(h + [e]) == h && Last(h + [e]) == e;
  }

  /** The k-th delivery is the k-th accepted submission; nothing is lost, duplicated or reordered. */
  lemma {:induction false} DeliveriesFollowSubmissions(cap: nat, h: History)
    requires Behaves(cap, h)
    ensures |Returned(h)| <= |Submitted(h)|
    ensures Queue(h) == Submitted(h)[|Returned(h)|..]
    ensures |Queue(h)| <= cap
    ensures forall k :: 0 <= k < |Returned(h)| ==> Returned(h)[k].length == Submitted(h)[k].request.length
  {
    if h != [] {
      DeliveriesFollowSubmissions(cap, Front(h));
    }
  }

  /** Entries wait in time order and none was stamped in the future. */
  lemma {:induction false} StampsAreOrdered(cap: nat, h: History)
    requires Behaves(cap, h)
    ensures forall k :: 0 <= k < |Queue(h)| ==> Queue(h)[k].stamp <= Now(h)
    ensures forall j, k :: 0 <= j < k < |Queue(h)| ==> Queue(h)[j].stamp <= Queue(h)[k].stamp
  {
    if h != [] {
      StampsAreOrdered(cap, Front(h));
    }
  }

  /**
   Every answer is exact, told by what was accepted and delivered before it: a
   submit is refused exactly when the FIFO is full; a complete finds nothing
   exactly when it is empty, and otherwise returns the length and age of the
   oldest entry.
   */
  lemma {:induction false} AnswersAreExact(cap: nat, h: History, i: nat)
    requires Behaves(cap, h) && i < |h| && h[i].Effect?
    ensures var p, op, res := h[..i], h[i].op, h[i].result;
            var subs, done := Submitted(p), |Returned(p)|;
            && (op.Submit? ==> res == if |subs| - done < cap then Accepted else NoSpace)
            && (op.Complete? && |subs| == done ==> res == NoData)
            && (op.Complete? && |subs| != done ==>
                  && done < |subs| && res.Completed?
                  && res.length == subs[done].request.length
                  && res.latency == Now(p) - subs[done].stamp)
  {
    var p := Front(h);
    if i == |p| {
      assert h[..i] == p && h[i] == Last(h);
      DeliveriesFollowSubmissions(cap, p);
    } else {
      assert p[..i] == h[..i] && p[i] == h[i];
      AnswersAreExact(cap, p, i);
    }
  }

  // ------------------------------------------------------------------
  // Little's law

  function LatencySum(d: seq<Delivery>): nat {
    if d == [] then 0 else LatencySum(Front(d)) + Last(d).latency
  }

  function Ages(q: seq<Entry>, now: nat): int {
    if q == [] then 0 else now - q[0].stamp + Ages(q[1..], now)
  }

  /** The integral over time of the number of entries in flight. */
  function OccupancyIntegral(h: History): int {
    if h == [] then 0
    else OccupancyIntegral(Front(h)) +
         if Last(h).Elapse?
         then (|Submitted(Front(h))| - |Returned(Front(h))|) * Last(h).ns else 0
  }

  lemma {:induction false} AgesGrow(q: seq<Entry>, now: nat, d: nat)
    ensures Ages(q, now + d) == Ages(q, now) + |q| * d
  {
    if q != [] {
      AgesGrow(q[1..], now, d);
      assert |q| * d == d + (|q| - 1) * d;
    }
  }

  lemma {:induction false} AgesAppend(q: seq<Entry>, e: Entry, now: nat)
    ensures Ages(q + [e], now) == Ages(q, now) + now - e.stamp
  {
    if q != [] {
      assert (q + [e])[1..] == q[1..] + [e];
      AgesAppend(q[1..], e, now);
    }
  }

  /** What has been delivered in latency, plus what is still accruing. */
  function Accrued(h: History): int {
    LatencySum(Returned(h)) + Ages(Queue(h), Now(h))
  }

  lemma ElapseSnoc(p: History, d: nat)
    ensures var h := p + [Elapse(d)];
            Returned(h) == Returned(p) && Queue(h) == Queue(p) && Now(h) == Now(p) + d
  {
    var h := p + [Elapse(d)];
    assert Front(h) == p && Last(h) == Elapse(d);
  }

  lemma TimeAccrues(p: History, d: nat)
    ensures Accrued(p + [Elapse(d)]) == Accrued(p) + |Queue(p)| * d
  {
    ElapseSnoc(p, d);
    AgesGrow(Queue(p), Now(p), d);
  }

  lemma EffectsAccrueNothing(cap: nat, p: History, e: Event)
    requires !e.Elapse? && Fits(cap, Queue(p), Now(p), e)
    ensures Accrued(p + [e]) == Accrued(p)
  {
    var h := p + [e];
    assert Front(h) == p && Last(h) == e && Now(h) == Now(p);
    if e.Effect? && e.op.Complete? && e.result.Completed? {
      assert Front(Returned(h)) == Returned(p);
    } else {
      assert Returned(h) == Returned(p);
      if e.Effect? && e.op.Submit? && e.result.Accepted? {
        AgesAppend(Queue(p), Entry(e.op.request, Now(p)), Now(p));
      }
    }
  }

  /** Delivered latency plus the age of what is still queued is the occupancy integrated over time. */
  lemma {:induction false} LittlesLaw(cap: nat, h: History)
    requires Behaves(cap, h)
    ensures LatencySum(Returned(h)) + Ages(Queue(h), Now(h)) == OccupancyIntegral(h)
  {
    if h != [] {
      var p, e := Front(h), Last(h);
      LittlesLaw(cap, p);
      DeliveriesFollowSubmissions(cap, p);
      assert p + [e] == h;
      if e.Elapse? {
        TimeAccrues(p, e.ns);
      } else {
        EffectsAccrueNothing(cap, p, e);
      }
    }
  }

  // ------------------------------------------------------------------
  // Every submit call is accounted for

  function Tids(h: History): set<nat> {
    if h == [] then {}
    else Tids(Front(h)) + if Last(h).Invoke? then {Last(h).tid} else {}
  }

  /** Threads whose submit call has not taken effect yet. */
  function Waiting(h: History): set<nat> {
    set t | t in Tids(h) && PhaseOf(h, t).Called? && PhaseOf(h, t).op.Submit?
  }

  lemma {:induction false} ActiveThreadsCalled(h: History, t: nat)
    requires Disciplined(h)
    requires PhaseOf(h, t) != Ready
    ensures t in Tids(h)
  {
    if h != [] && PhaseOf(Front(h), t) != Ready {
      ActiveThreadsCalled(Front(h), t);
    }
  }

  lemma WaitingStep(p: History, e: Event)
    requires Disciplined(p) && InTurn(p, e)
    ensures Waiting(p + [e]) ==
            if e.Invoke? && e.op.Submit? then Waiting(p) + {e.tid}
            else if e.Effect? then Waiting(p) - {e.tid}
            else Waiting(p)
    ensures e.Invoke? ==> e.tid !in Waiting(p)
    ensures e.Effect? ==> (e.tid in Waiting(p) <==> e.op.Submit?)
  {
    var h := p + [e];
    assert Front(h) == p && Last(h) == e;
    if e.Effect? {
      ActiveThreadsCalled(p, e.tid);
    }
    forall t
      ensures t in Waiting(h) <==>
              t in if e.Invoke? && e.op.Submit? then Waiting(p) + {e.tid}
                   else if e.Effect? then Waiting(p) - {e.tid} else Waiting(p)
    {
      assert PhaseOf(h, t) == PhaseOf(p, t) || (!e.Elapse? && e.tid == t);
    }
  }

  /** Every submit call was accepted, was refused, or has not taken effect yet. */
  lemma {:induction false} SubmitCallsAreAccounted(cap: nat, h: History)
    requires Linearizable(cap, h)
    ensures SubmitCalls(h) == |Submitted(h)| + Rejected(h) + |Waiting(h)|
  {
    if h != [] {
      SubmitCallsAreAccounted(cap, Front(h));
      WaitingStep(Front(h), Last(h));
      assert Front(h) + [Last(h)] == h;
    }
  }
}

/**
 The descriptor ring as an object. The lock makes each method one atomic step,
 so the methods are stated against the FIFO contents before and after the call;
 `RingThreads` opens the critical sections up.
 */
module RingBuffer {
  import opened BoundedFifo
  import opened RingThreads
  import opened Arithmetic
  import opened Wrappers

  /** The ring after a whole accepted submit. */
  function AfterSubmit(v: Ring, q: Request, now: nat): Ring {
    RingData(v.desc[v.head := Descriptor(q.bufferAddr, q.length, q.flags, now, 0)],
             Next(v.head, |v.desc|), v.tail, v.count + 1, v.submissions + 1, v.completions, v.overruns)
  }

  /** The ring after a whole successful complete. */
  function AfterComplete(v: Ring, status: nat): Ring {
    RingData(v.desc[v.tail := v.desc[v.tail].(status := status)],
             v.head, Next(v.tail, |v.desc|), v.count - 1, v.submissions, v.completions + 1, v.overruns)
  }

  lemma SubmitKeepsMatch(v: Ring, q: Request, now: nat, subs: seq<Entry>, done: nat, refused: nat)
    requires Match(v, Idle, subs, done, refused) && v.count < |v.desc|
    ensures Match(AfterSubmit(v, q, now), Idle, subs + [Entry(q, now)], done, refused)
  {
    FillKeepsMatch(v, q, now, subs, done, refused);
    var v1 := MicroStep(v, SubmitFill(q), now).ring;
    var v2 := MicroStep(v1, SubmitHead(q), now).ring;
    BookkeepingKeepsMatch(v1, SubmitHead(q), now, subs + [Entry(q, now)], done, refused);
    SubmitSettles(v2, q, subs + [Entry(q, now)], done, refused);
  }

  lemma SubmitSettles(v: Ring, q: Request, subs: seq<Entry>, done: nat, refused: nat)
    requires Match(v, SubmitCount(q), subs, done, refused)
    ensures Match(v.(count := v.count + 1, submissions := v.submissions + 1), Idle, subs, done, refused)
  {
  }

  lemma CompleteSettles(v: Ring, status: nat, res: Result, subs: seq<Entry>, done: nat, refused: nat)
    requires Match(v, CompleteCount(status, res), subs, done, refused)
    ensures Match(v.(count := v.count - 1, completions := v.completions + 1), Idle, subs, done, refused)
  {
  }

  lemma CompleteKeepsMatch(v: Ring, status: nat, now: nat, subs: seq<Entry>, done: nat, refused: nat)
    requires Match(v, Idle, subs, done, refused) && v.count != 0
    ensures Match(AfterComplete(v, status), Idle, subs, done + 1, refused)
  {
    var at := CompleteMark(status, NoData);
    MarkKeepsMatch(v, at, now, subs, done + 1, refused);
    var v1 := MicroStep(v, at, now).ring;
    var v2 := MicroStep(v1, CompleteTail(status, NoData), now).ring;
    BookkeepingKeepsMatch(v1, CompleteTail(status, NoData), now, subs, done + 1, refused);
    CompleteSettles(v2, status, NoData, subs, done + 1, refused);
  }

  // ------------------------------------------------------------------
  // A call that no other thread interrupts

  function RunThrice(s: State, t: nat): State {
    Apply(Apply(Apply(s, Run(t)), Run(t)), Run(t))
  }

  /** What the history gains from one whole call. */
  function Episode(t: nat, op: Op, res: Result): History {
    [Invoke(t, op), Effect(t, op, res), Respond(t, res)]
  }

  lemma EpisodeOf(h: History, t: nat, op: Op, res: Result)
    ensures h + [Invoke(t, op)] + [Effect(t, op, res)] + [Respond(t, res)] == h + Episode(t, op, res)
  {
  }

  lemma Leaves(s: State, t: nat, op: Op, res: Result)
    requires PcOf(s, t) == Unlocking(op, res) && s.lock == Some(t)
    ensures var s' := RunThrice(s, t);
            && PcOf(s', t) == Idle && s'.lock.None? && s'.ring == s.ring
            && s'.history == s.history + [Respond(t, res)]
  {
    var s1 := Apply(s, Run(t));
    assert PcOf(s1, t) == Returning(op, res) && s1.history == s.history;
  }

  lemma Silently(s: State, t: nat)
    requires var pc := PcOf(s, t);
             && InCriticalSection(pc) && !pc.Unlocking? && MicroStep(s.ring, pc, s.now).effect.None?
    ensures var s', m := Apply(s, Run(t)), MicroStep(s.ring, PcOf(s, t), s.now);
            s' == s.(ring := m.ring, pcs := s.pcs[t := m.pc])
  {
    assert s.history + [] == s.history;
  }

  lemma SubmitFillsSlot(s: State, t: nat, q: Request)
    requires PcOf(s, t) == SubmitLock(q) && s.lock.None? && s.ring.count < |s.ring.desc|
    ensures var s' := RunThrice(s, t);
            && PcOf(s', t) == SubmitHead(q) && s'.lock == Some(t)
            && s'.ring.desc == s.ring.desc[s.ring.head := Descriptor(q.bufferAddr, q.length, q.flags, s.now, 0)]
            && s'.ring == s.ring.(desc := s'.ring.desc)
            && s'.history == s.history + [Effect(t, Submit(q), Accepted)]
  {
    var s1 := Apply(s, Run(t));
    Silently(s1, t);
    var s2 := Apply(s1, Run(t));
    assert PcOf(s2, t) == SubmitFill(q) && s2.ring == s.ring && s2.now == s.now && s2.history == s.history;
  }

  lemma SubmitPublishesSlot(s: State, t: nat, q: Request)
    requires PcOf(s, t) == SubmitHead(q) && s.lock == Some(t)
    ensures var s' := RunThrice(s, t);
            && PcOf(s', t) == Unlocking(Submit(q), Accepted) && s'.lock == Some(t)
            && s'.ring == s.ring.(head := Next(s.ring.head, |s.ring.desc|), count := s.ring.count + 1,
                                  submissions := s.ring.submissions + 1)
            && s'.history == s.history
  {
    Silently(s, t);
    Silently(Apply(s, Run(t)), t);
    Silently(Apply(Apply(s, Run(t)), Run(t)), t);
  }

  /** A submit that is not interleaved with others, when there is room. */
  lemma AcceptedSubmit(s: State, t: nat, q: Request)
    requires PcOf(s, t) == Idle && s.lock.None? && s.ring.count < |s.ring.desc|
    ensures var s' := RunThrice(RunThrice(RunThrice(Apply(s, Call(t, Submit(q))), t), t), t);
            && s'.ring == AfterSubmit(s.ring, q, s.now) && PcOf(s', t) == Idle && s'.lock.None?
            && s'.history == s.history + Episode(t, Submit(q), Accepted)
  {
    var s0 := Apply(s, Call(t, Submit(q)));
    SubmitFillsSlot(s0, t, q);
    SubmitPublishesSlot(RunThrice(s0, t), t, q);
    Leaves(RunThrice(RunThrice(s0, t), t), t, Submit(q), Accepted);
    EpisodeOf(s.history, t, Submit(q), Accepted);
  }

  lemma SubmitCountsOverrun(s: State, t: nat, q: Request)
    requires PcOf(s, t) == SubmitLock(q) && s.lock.None? && s.ring.count >= |s.ring.desc|
    ensures var s' := RunThrice(s, t);
            && PcOf(s', t) == Unlocking(Submit(q), NoSpace) && s'.lock == Some(t)
            && s'.ring == s.ring.(overruns := s.ring.overruns + 1)
            && s'.history == s.history + [Effect(t, Submit(q), NoSpace)]
  {
    var s2 := Apply(Apply(s, Run(t)), Run(t));
    assert PcOf(s2, t) == SubmitOverrun(q) && s2.ring == s.ring && s2.lock == Some(t);
    assert s2.history == s.history + [Effect(t, Submit(q), NoSpace)];
    Silently(s2, t);
  }

  lemma Rests(s: State, t: nat)
    requires PcOf(s, t) == Idle
    ensures RunThrice(s, t) == s
  {
  }

  /** A submit into a full ring leaves nothing behind but one more overrun. */
  lemma RefusedSubmit(s: State, t: nat, q: Request)
    requires PcOf(s, t) == Idle && s.lock.None? && s.ring.count >= |s.ring.desc|
    ensures var s' := RunThrice(RunThrice(RunThrice(Apply(s, Call(t, Submit(q))), t), t), t);
            && s'.ring == s.ring.(overruns := s.ring.overruns + 1) && PcOf(s', t) == Idle && s'.lock.None?
            && s'.history == s.history + Episode(t, Submit(q), NoSpace)
  {
    var s0 := Apply(s, Call(t, Submit(q)));
    SubmitCountsOverrun(s0, t, q);
    Leaves(RunThrice(s0, t), t, Submit(q), NoSpace);
    Rests(RunThrice(RunThrice(s0, t), t), t);
    EpisodeOf(s.history, t, Submit(q), NoSpace);
  }

  /**
   A submit that is not interleaved with others does to the ring, and answers,
   what the method below does: it is accepted exactly when there is room.
   */
  lemma UninterruptedSubmit(s: State, t: nat, q: Request)
    requires PcOf(s, t) == Idle && s.lock.None?
    ensures var s' := RunThrice(RunThrice(RunThrice(Apply(s, Call(t, Submit(q))), t), t), t);
            var room := s.ring.count < |s.ring.desc|;
            && PcOf(s', t) == Idle && s'.lock.None?
            && s'.ring == (if room then AfterSubmit(s.ring, q, s.now)
                           else s.ring.(overruns := s.ring.overruns + 1))
            && s'.history == s.history + Episode(t, Submit(q), if room then Accepted else NoSpace)
  {
    if s.ring.count < |s.ring.desc| {
      AcceptedSubmit(s, t, q);
    } else {
      RefusedSubmit(s, t, q);
    }
  }

  /** What complete answers from the oldest descriptor. */
  function OldestDone(r: Ring, now: nat): Result {
    Completed(r.desc[r.tail].length, U64Sub(now, r.desc[r.tail].timestamp))
  }

  lemma CompleteReadsSlot(s: State, t: nat, status: nat)
    requires PcOf(s, t) == CompleteLock(status) && s.lock.None? && s.ring.count != 0
    ensures var s', res := RunThrice(s, t), OldestDone(s.ring, s.now);
            && PcOf(s', t) == CompleteMark(status, res)
            && s'.lock == Some(t) && s'.ring == s.ring
            && s'.history == s.history + [Effect(t, Complete(status), res)]
  {
    var s1 := Apply(s, Run(t));
    Silently(s1, t);
    var s2 := Apply(s1, Run(t));
    assert PcOf(s2, t) == CompleteRead(status) && s2.ring == s.ring && s2.now == s.now && s2.history == s.history;
  }

  lemma CompleteRetiresSlot(s: State, t: nat, status: nat, res: Result)
    requires PcOf(s, t) == CompleteMark(status, res) && s.lock == Some(t)
    ensures var s' := RunThrice(s, t);
            && PcOf(s', t) == CompleteTally(status, res) && s'.lock == Some(t)
            && s'.ring == s.ring.(desc := s.ring.desc[s.ring.tail := s.ring.desc[s.ring.tail].(status := status)],
                                  tail := Next(s.ring.tail, |s.ring.desc|), count := s.ring.count - 1)
            && s'.history == s.history
  {
    Silently(s, t);
    Silently(Apply(s, Run(t)), t);
    Silently(Apply(Apply(s, Run(t)), Run(t)), t);
  }

  lemma CompleteFinishes(s: State, t: nat, status: nat, res: Result)
    requires PcOf(s, t) == CompleteTally(status, res) && s.lock == Some(t)
    ensures var s' := RunThrice(s, t);
            && PcOf(s', t) == Idle && s'.lock.None?
            && s'.ring == s.ring.(completions := s.ring.completions + 1)
            && s'.history == s.history + [Respond(t, res)]
  {
    Silently(s, t);
    var s2 := Apply(Apply(s, Run(t)), Run(t));
    assert PcOf(s2, t) == Returning(Complete(status), res) && s2.history == s.history && s2.lock.None?;
  }

  lemma SuccessfulComplete(s: State, t: nat, status: nat)
    requires PcOf(s, t) == Idle && s.lock.None? && s.ring.count != 0
    ensures var s' := RunThrice(RunThrice(RunThrice(Apply(s, Call(t, Complete(status))), t), t), t);
            && s'.ring == AfterComplete(s.ring, status) && PcOf(s', t) == Idle && s'.lock.None?
            && s'.history == s.history + Episode(t, Complete(status), OldestDone(s.ring, s.now))
  {
    var s0, res := Apply(s, Call(t, Complete(status))), OldestDone(s.ring, s.now);
    CompleteReadsSlot(s0, t, status);
    CompleteRetiresSlot(RunThrice(s0, t), t, status, res);
    CompleteFinishes(RunThrice(RunThrice(s0, t), t), t, status, res);
    EpisodeOf(s.history, t, Complete(status), res);
  }

  lemma CompleteFindsNothing(s: State, t: nat, status: nat)
    requires PcOf(s, t) == CompleteLock(status) && s.lock.None? && s.ring.count == 0
    ensures var s' := RunThrice(s, t);
            && PcOf(s', t) == Returning(Complete(status), NoData) && s'.lock.None? && s'.ring == s.ring
            && s'.history == s.history + [Effect(t, Complete(status), NoData)]
  {
    var s2 := Apply(Apply(s, Run(t)), Run(t));
    assert PcOf(s2, t) == Unlocking(Complete(status), NoData) && s2.ring == s.ring;
    assert s2.history == s.history + [Effect(t, Complete(status), NoData)];
  }

  /** A complete on an empty ring changes nothing. */
  lemma EmptyComplete(s: State, t: nat, status: nat)
    requires PcOf(s, t) == Idle && s.lock.None? && s.ring.count == 0
    ensures var s' := RunThrice(RunThrice(RunThrice(Apply(s, Call(t, Complete(status))), t), t), t);
            && s'.ring == s.ring && PcOf(s', t) == Idle && s'.lock.None?
            && s'.history == s.history + Episode(t, Complete(status), NoData)
  {
    var s0 := Apply(s, Call(t, Complete(status)));
    CompleteFindsNothing(s0, t, status);
    var s1 := RunThrice(s0, t);
    var s2 := Apply(s1, Run(t));
    assert PcOf(s2, t) == Idle && s2.history == s1.history + [Respond(t, NoData)];
    Rests(RunThrice(s1, t), t);
    EpisodeOf(s.history, t, Complete(status), NoData);
  }

  /** Likewise a complete, which finds nothing exactly when the ring is empty. */
  lemma UninterruptedComplete(s: State, t: nat, status: nat)
    requires PcOf(s, t) == Idle && s.lock.None?
    ensures var s' := RunThrice(RunThrice(RunThrice(Apply(s, Call(t, Complete(status))), t), t), t);
            var any := s.ring.count != 0;
            && PcOf(s', t) == Idle && s'.lock.None?
            && s'.ring == (if any then AfterComplete(s.ring, status) else s.ring)
            && s'.history == s.history
                             + Episode(t, Complete(status), if any then OldestDone(s.ring, s.now) else NoData)
  {
    if s.ring.count != 0 {
      SuccessfulComplete(s, t, status);
    } else {
      EmptyComplete(s, t, status);
    }
  }

  // ------------------------------------------------------------------
  // The ring object

  class DescriptorRing {
    var descriptors: array<Descriptor>
    var head: nat
    var tail: nat
    var count: int
    var submissions: nat
    var completions: nat
    var overruns: nat
    /** Everything accepted since init; the live entries are those not completed yet. */
    ghost var accepted: seq<Entry>

    ghost predicate Valid()
      reads this, descriptors
    {
      && head < descriptors.Length && tail < descriptors.Length
      && Match(View(), Idle, accepted, completions, overruns)
    }

    ghost function View(): Ring
      reads this, descriptors
      requires head < descriptors.Length && tail < descriptors.Length
    {
      RingData(descriptors[..], head, tail, count, submissions, completions, overruns)
    }

    ghost function Contents(): seq<Entry>
      reads this, descriptors
      requires Valid()
    {
      accepted[completions..]
    }

    constructor (size: nat)
      requires 0 < size
      ensures Valid() && fresh(descriptors) && descriptors.Length == size
      ensures Contents() == []
      ensures head == tail == submissions == completions == overruns == 0
    {
      descriptors := new Descriptor[size](_ => ZEROED);
      head, tail, count := 0, 0, 0;
      submissions, completions, overruns := 0, 0, 0;
      accepted := [];
    }

    method Count() returns (n: nat)
      requires Valid()
      ensures n == |Contents()|
    {
      n := count;
    }

    method Space() returns (n: nat)
      requires Valid()
      ensures n + |Contents()| == descriptors.Length
    {
      n := descriptors.Length - count;
    }

    method Submit(request: Request, now: nat) returns (r: Result)
      requires Valid()
      modifies this, descriptors
      ensures Valid() && descriptors == old(descriptors)
      ensures r == if |old(Contents())| < descriptors.Length then Accepted else NoSpace
      ensures Contents() == old(Contents()) + if r.Accepted? then [Entry(request, now)] else []
      ensures submissions == old(submissions) + Bit(r.Accepted?)
      ensures overruns == old(overruns) + Bit(r.NoSpace?)
      ensures completions == old(completions) && tail == old(tail)
    {
      if count >= descriptors.Length {
        overruns := overruns + 1;
        return NoSpace;
      }
      SubmitKeepsMatch(View(), request, now, accepted, completions, overruns);
      descriptors[head] := Descriptor(request.bufferAddr, request.length, request.flags, now, 0);
      head := Next(head, descriptors.Length);
      count := count + 1;
      submissions := submissions + 1;
      accepted := accepted + [Entry(request, now)];
      assert View() == AfterSubmit(old(View()), request, now);
      return Accepted;
    }

    /** The clock does not run backwards, so `now` is no earlier than any stamp in the ring. */
    method Complete(status: nat, now: nat) returns (r: Result)
      requires Valid()
      requires now < U64
      requires forall k :: 0 <= k < |Contents()| ==> Contents()[k].stamp <= now
      modifies this, descriptors
      ensures Valid() && descriptors == old(descriptors)
      ensures r.NoData? <==> old(Contents()) == []
      ensures r.NoData? || r.Completed?
      ensures r.Completed? ==>
                && r.length == old(Contents())[0].request.length
                && r.latency == now - old(Contents())[0].stamp
                && Contents() == old(Contents())[1..]
                && old(descriptors[tail]).(status := status) == descriptors[old(tail)]
      ensures r.NoData? ==> Contents() == []
      ensures completions == old(completions) + Bit(r.Completed?)
      ensures submissions == old(submissions) && overruns == old(overruns) && head == old(head)
    {
      if count == 0 {
        return NoData;
      }
      var d := descriptors[tail];
      assert d.length == Contents()[0].request.length && d.timestamp == Contents()[0].stamp by {
        assert Stored(View().desc[Slot(completions, descriptors.Length)], accepted[completions]);
      }
      r := Completed(d.length, U64Sub(now, d.timestamp));
      CompleteKeepsMatch(View(), status, now, accepted, completions, overruns);
      descriptors[tail] := d.(status := status);
      tail := Next(tail, descriptors.Length);
      count := count - 1;
      completions := completions + 1;
      assert View() == AfterComplete(old(View()), status);
    }
  }
}

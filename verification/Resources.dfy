/**
 The kernel resources the driver acquires, what each of them rests on, and what
 makes a trace of acquisitions and releases legal.
 */
module Resources {
  import opened Sequences

  datatype Resource =
    | Region             // character device numbers
    | Class              // device class
    | Driver             // registered platform driver
    | Pdev(index: nat)   // allocated platform device
    | Registered(index: nat)
    | Memory(index: nat) // the driver's per-device structure
    | Cdev(index: nat)
    | Node(index: nat)   // device file
    | ProcDir(index: nat)
    | ProcStats(index: nat)

  /** A call that can fail ends in an acquisition or a refusal. */
  datatype Event = Acquire(r: Resource) | Refuse(r: Resource) | Release(r: Resource)

  /** Everything a bound device owns. */
  function Entries(i: nat): set<Resource> {
    {Memory(i), Cdev(i), Node(i), ProcDir(i), ProcStats(i)}
  }

  /** What must be live for as long as `r` is. */
  function Needs(r: Resource): set<Resource> {
    match r
    case Region => {}
    case Class => {}
    case Driver => {Region, Class}
    case Pdev(_) => {}
    case Registered(i) => {Pdev(i)}
    case Memory(i) => {Registered(i), Driver}
    case Cdev(i) => {Memory(i), Region}
    case Node(i) => {Cdev(i), Registered(i), Class}
    case ProcDir(_) => {}
    case ProcStats(i) => {ProcDir(i), Memory(i)}
  }

  function Live(log: seq<Event>): set<Resource> {
    if log == [] then {}
    else
      match Last(log)
      case Acquire(r) => Live(Front(log)) + {r}
      case Refuse(_) => Live(Front(log))
      case Release(r) => Live(Front(log)) - {r}
  }

  /** `r` may be released: it is live and nothing live needs it. */
  predicate Releasable(live: set<Resource>, r: Resource) {
    r in live && forall q :: q in live ==> r !in Needs(q)
  }

  predicate LegalNext(live: set<Resource>, e: Event) {
    match e
    case Acquire(r) => r !in live && Needs(r) <= live
    case Refuse(r) => r !in live && Needs(r) <= live
    case Release(r) => Releasable(live, r)
  }

  predicate Legal(log: seq<Event>) {
    log == [] || (Legal(Front(log)) && LegalNext(Live(Front(log)), Last(log)))
  }

  function Count(log: seq<Event>, e: Event): nat {
    if log == [] then 0 else Count(Front(log), e) + if Last(log) == e then 1 else 0
  }

  /** How often the kernel was asked for a resource. */
  function Attempts(log: seq<Event>): nat {
    if log == [] then 0 else Attempts(Front(log)) + if Last(log).Release? then 0 else 1
  }

  /** Attempt number n was refused exactly when `fails(n)`. */
  predicate Obeys(log: seq<Event>, fails: nat -> bool) {
    log != [] ==>
      && Obeys(Front(log), fails)
      && (Last(log).Acquire? ==> !fails(Attempts(Front(log))))
      && (Last(log).Refuse? ==> fails(Attempts(Front(log))))
  }

  /** A refusal that a load does not survive; what belongs to a probe is not among them. */
  predicate Fatal(e: Event) {
    e.Refuse? && (e.r.Region? || e.r.Class? || e.r.Driver? || e.r.Pdev? || e.r.Registered?)
  }

  /** Something the probe of device `i` asked for was refused. */
  predicate Spoils(e: Event, i: nat) {
    e.Refuse? && e.r in Entries(i)
  }

  /** The refusals of a stretch of trace: all of them, the fatal ones, and the devices the others belong to. */
  datatype Tally = Tally(refusals: nat, setbacks: nat, spoilt: set<nat>)

  const NO_REFUSALS := Tally(0, 0, {})

  function Noted(t: Tally, e: Event): Tally {
    if !e.Refuse? then t
    else if Fatal(e) then t.(refusals := t.refusals + 1, setbacks := t.setbacks + 1)
    else Spoil(t, e.r.index)
  }

  function Spoil(t: Tally, i: nat): Tally {
    t.(refusals := t.refusals + 1, spoilt := t.spoilt + {i})
  }

  /** The tally of the events from position `from` on. */
  function TallyOf(log: seq<Event>, from: nat): Tally {
    if |log| <= from then NO_REFUSALS else Noted(TallyOf(Front(log), from), Last(log))
  }

  predicate NoRefusal(log: seq<Event>, from: nat) {
    forall k :: from <= k < |log| ==> !log[k].Refuse?
  }

  lemma {:induction false} TallyMeans(log: seq<Event>, from: nat)
    ensures var t := TallyOf(log, from);
            && (t.setbacks == 0 <==> forall k :: from <= k < |log| ==> !Fatal(log[k]))
            && forall i: nat :: i in t.spoilt <==> exists k :: from <= k < |log| && Spoils(log[k], i)
  {
    if |log| > from {
      var p, e := Front(log), Last(log);
      TallyMeans(p, from);
      assert forall k :: from <= k < |p| ==> log[k] == p[k];
      assert log[|p|] == e;
      forall i: nat
        ensures i in TallyOf(log, from).spoilt <==> exists k :: from <= k < |log| && Spoils(log[k], i)
      {
        assert i in TallyOf(log, from).spoilt <==> i in TallyOf(p, from).spoilt || Spoils(e, i);
      }
    }
  }

  /** Counting refusals tells whether there was one since. */
  lemma {:induction false} RefusalsSince(early: seq<Event>, log: seq<Event>, from: nat)
    requires early <= log && from <= |early|
    ensures TallyOf(early, from).refusals <= TallyOf(log, from).refusals
    ensures TallyOf(early, from).refusals == TallyOf(log, from).refusals <==> NoRefusal(log, |early|)
    decreases |log|
  {
    if early != log {
      var p := Front(log);
      assert early <= p;
      RefusalsSince(early, p, from);
      assert forall k :: |early| <= k < |p| ==> log[k] == p[k];
      assert Last(log) == log[|p|];
    }
  }

  /** How one more event changes each view of a trace. */
  lemma TraceSnoc(log: seq<Event>, e: Event, fails: nat -> bool)
    ensures Legal(log + [e]) <==> Legal(log) && LegalNext(Live(log), e)
    ensures Obeys(log + [e], fails) <==>
            Obeys(log, fails) && (e.Acquire? ==> !fails(Attempts(log))) && (e.Refuse? ==> fails(Attempts(log)))
    ensures Live(log + [e]) ==
            if e.Acquire? then Live(log) + {e.r} else if e.Release? then Live(log) - {e.r} else Live(log)
    ensures Attempts(log + [e]) == Attempts(log) + if e.Release? then 0 else 1
    ensures forall from: nat :: from <= |log| ==> TallyOf(log + [e], from) == Noted(TallyOf(log, from), e)
  {
    assert Front(log + [e]) == log && Last(log + [e]) == e;
  }

  /** Nothing but a device's own entries rests on its platform device. */
  lemma ReleasablePdev(live: set<Resource>, i: nat)
    requires Pdev(i) in live && Registered(i) !in live
    ensures Releasable(live, Pdev(i))
  {
  }

  lemma ReleasableRegistered(live: set<Resource>, i: nat)
    requires Registered(i) in live && Memory(i) !in live && Node(i) !in live
    ensures Releasable(live, Registered(i))
  {
  }

  lemma ReleasableMemory(live: set<Resource>, i: nat)
    requires Memory(i) in live && Cdev(i) !in live && ProcStats(i) !in live
    ensures Releasable(live, Memory(i))
  {
  }

  /** Releases follow acquisitions one for one: what was acquired is live or was released once. */
  lemma {:induction false} ReleasedExactlyOnce(log: seq<Event>, r: Resource)
    requires Legal(log)
    ensures Count(log, Acquire(r)) == Count(log, Release(r)) + if r in Live(log) then 1 else 0
  {
    if log != [] {
      ReleasedExactlyOnce(Front(log), r);
    }
  }

  /** At every release in a legal trace, everything that needed the resource is already gone. */
  lemma {:induction false} ReleasedAfterDependents(log: seq<Event>, k: nat)
    requires Legal(log) && k < |log| && log[k].Release?
    ensures forall q :: q in Live(log[..k]) ==> log[k].r !in Needs(q)
  {
    if k == |log| - 1 {
      assert log[..k] == Front(log);
    } else {
      assert Front(log)[..k] == log[..k];
      ReleasedAfterDependents(Front(log), k);
    }
  }

  /** Whatever is live in a legal trace has all it needs. */
  lemma {:induction false} LiveIsSupported(log: seq<Event>)
    requires Legal(log)
    ensures forall q :: q in Live(log) ==> Needs(q) <= Live(log)
  {
    if log != [] {
      LiveIsSupported(Front(log));
    }
  }
}

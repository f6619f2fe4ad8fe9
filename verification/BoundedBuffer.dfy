/** Producer and consumer in two processes, sharing a ring buffer under a mutex with two
    condition variables.  Any capacity, any number of iterations, any interleaving, spurious
    wake-ups included. */
module BoundedBuffer {
  import opened Common

  /** The shared ring: `size` items starting at index `out`. */
  datatype Ring = Ring(items: seq<int>, inn: nat, out: nat, size: nat)

  ghost predicate RingOk(r: Ring) {
    && |r.items| > 0 && r.out < |r.items| && r.size <= |r.items|
    && r.inn == Wrap(r.out + r.size, |r.items|)
  }

  /** The unconsumed items, oldest first. */
  ghost function Window(r: Ring): (w: seq<int>)
    requires RingOk(r)
    ensures |w| == r.size
    ensures forall k :: 0 <= k < r.size ==> w[k] == r.items[Wrap(r.out + k, |r.items|)]
  {
    seq(r.size, k requires 0 <= k < r.size => r.items[Wrap(r.out + k, |r.items|)])
  }

  function Put(r: Ring, x: int): Ring
    requires r.inn < |r.items|
  {
    Ring(r.items[r.inn := x], (r.inn + 1) % |r.items|, r.out, r.size + 1)
  }

  function Take(r: Ring): Ring
    requires r.out < |r.items| && r.size > 0
  {
    r.(out := (r.out + 1) % |r.items|, size := r.size - 1)
  }

  lemma ModIsWrap(x: nat, b: nat)
    requires x < b
    ensures (x + 1) % b == Wrap(x + 1, b)
  {
  }

  /** Putting appends to the window and taking removes its first item: a queue. */
  lemma RingIsQueue(r: Ring, x: int)
    requires RingOk(r)
    ensures r.inn < |r.items|
    ensures r.size < |r.items| ==> RingOk(Put(r, x)) && Window(Put(r, x)) == Window(r) + [x]
    ensures r.size > 0 ==> && RingOk(Take(r)) && Window(r) == [r.items[r.out]] + Window(Take(r))
  {
    hide Window;
    if r.size < |r.items| {
      PutAppends(r, x);
    }
    if r.size > 0 {
      TakeRemoves(r);
    }
  }

  lemma PutAppends(r: Ring, x: int)
    requires RingOk(r) && r.size < |r.items|
    ensures r.inn < |r.items| && RingOk(Put(r, x)) && Window(Put(r, x)) == Window(r) + [x]
  {
    ModIsWrap(r.inn, |r.items|);
    var w := Window(Put(r, x));
    forall k | 0 <= k < |w|
      ensures w[k] == (Window(r) + [x])[k]
    {
    }
  }

  lemma TakeRemoves(r: Ring)
    requires RingOk(r) && r.size > 0
    ensures RingOk(Take(r)) && Window(r) == [r.items[r.out]] + Window(Take(r))
  {
    ModIsWrap(r.out, |r.items|);
    var w := [r.items[r.out]] + Window(Take(r));
    forall k | 0 <= k < |w|
      ensures w[k] == Window(r)[k]
    {
    }
  }

  // ---------------------------------------------------------------- the two processes

  datatype Role = Producer | Consumer

  /** Where a process is in its loop body: before the lock, at the while test with the lock
      held, asleep in pthread_cond_wait, woken but without the lock, after the ring operation,
      after pthread_cond_signal, or finished. */
  datatype Pc = Idle | Testing | Waiting | Woken | Worked | Signalled | Finished

  datatype Process = Process(pc: Pc, i: nat)

  datatype Mutex = Free | Held(holder: Role)

  datatype State = State(
    ring: Ring,
    mutex: Mutex,
    prod: Process,
    cons: Process,
    produced: seq<int>,
    consumed: seq<int>,
    spurious: nat)

  datatype Step = Lock(r: Role) | Test(r: Role) | Signal(r: Role) | Unlock(r: Role) | Spurious(r: Role)

  function Me(s: State, r: Role): Process {
    if r.Producer? then s.prod else s.cons
  }

  function Other(r: Role): Role {
    if r.Producer? then Consumer else Producer
  }

  function SetMe(s: State, r: Role, p: Process): State {
    if r.Producer? then s.(prod := p) else s.(cons := p)
  }

  /** The while condition around pthread_cond_wait. */
  predicate MustWait(s: State, r: Role) {
    if r.Producer? then s.ring.size >= |s.ring.items| else s.ring.size == 0
  }

  ghost predicate Init(n: nat, s: State) {
    && |s.ring.items| > 0 && s.ring == Ring(s.ring.items, 0, 0, 0)
    && s.mutex == Free && s.produced == [] && s.consumed == [] && s.spurious == 0
    && s.prod == s.cons == Process(if n == 0 then Finished else Idle, 0)
  }

  predicate Enabled(s: State, e: Step) {
    var p := Me(s, e.r);
    match e
    case Lock(_) => (p.pc.Idle? || p.pc.Woken?) && s.mutex.Free?
    case Test(_) => p.pc.Testing? && s.ring.inn < |s.ring.items| && s.ring.out < |s.ring.items|
    case Signal(_) => p.pc.Worked?
    case Unlock(_) => p.pc.Signalled?
    case Spurious(_) => p.pc.Waiting?
  }

  /** The critical section after the wait loop. */
  function Work(s: State, r: Role): State
    requires s.ring.inn < |s.ring.items| && s.ring.out < |s.ring.items| && !MustWait(s, r)
  {
    if r.Producer? then
      s.(ring := Put(s.ring, s.prod.i), produced := s.produced + [s.prod.i], prod := s.prod.(pc := Worked))
    else
      s.(ring := Take(s.ring), consumed := s.consumed + [s.ring.items[s.ring.out]],
         cons := s.cons.(pc := Worked))
  }

  function Wake(p: Process): Process {
    if p.pc.Waiting? then p.(pc := Woken) else p
  }

  function Apply(n: nat, s: State, e: Step): State
    requires Enabled(s, e)
  {
    var p := Me(s, e.r);
    match e
    case Lock(r) => SetMe(s, r, p.(pc := Testing)).(mutex := Held(r))
    case Test(r) => if MustWait(s, r) then SetMe(s, r, p.(pc := Waiting)).(mutex := Free) else Work(s, r)
    case Signal(r) => SetMe(SetMe(s, r, p.(pc := Signalled)), Other(r), Wake(Me(s, Other(r))))
    case Unlock(r) =>
      SetMe(s, r, Process(if p.i + 1 < n then Idle else Finished, p.i + 1)).(mutex := Free)
    case Spurious(r) => SetMe(s, r, p.(pc := Woken)).(spurious := s.spurious + 1)
  }

  ghost predicate Next(n: nat, s: State, t: State) {
    exists e :: Enabled(s, e) && t == Apply(n, s, e)
  }

  ghost predicate IsRun(n: nat, run: seq<State>) {
    |run| > 0 && Init(n, run[0]) && forall i :: 0 < i < |run| ==> Next(n, run[i - 1], run[i])
  }

  // ---------------------------------------------------------------- invariant

  predicate InCritical(p: Process) {
    p.pc.Testing? || p.pc.Worked? || p.pc.Signalled?
  }

  function Operations(p: Process): nat {
    p.i + if p.pc.Worked? || p.pc.Signalled? then 1 else 0
  }

  ghost predicate ProcessOk(n: nat, s: State, r: Role) {
    var p := Me(s, r);
    && p.i <= n && (p.pc.Finished? <==> p.i == n)
    && (InCritical(p) <==> s.mutex == Held(r))
    && (p.pc.Waiting? ==> MustWait(s, r) || Me(s, Other(r)).pc.Worked?)
  }

  ghost predicate Inv(n: nat, s: State) {
    && ProcessOk(n, s, Producer) && ProcessOk(n, s, Consumer)
    && RingOk(s.ring)
    && |s.produced| == Operations(s.prod) && |s.consumed| == Operations(s.cons)
    && s.produced == s.consumed + Window(s.ring)
    && (forall k :: 0 <= k < |s.produced| ==> s.produced[k] == k)
  }

  lemma WorkInv(n: nat, s: State, r: Role)
    requires Inv(n, s) && Me(s, r).pc.Testing? && !MustWait(s, r)
    requires s.ring.inn < |s.ring.items| && s.ring.out < |s.ring.items|
    ensures Inv(n, Work(s, r))
  {
    RingIsQueue(s.ring, s.prod.i);
    hide Window, Put, Take, RingOk;
    if r.Producer? {
      Regroup(s.consumed, Window(s.ring), [s.prod.i]);
    } else {
      Regroup(s.consumed, [s.ring.items[s.ring.out]], Window(Take(s.ring)));
    }
  }

  lemma StepInv(n: nat, s: State, e: Step)
    requires Inv(n, s) && Enabled(s, e)
    ensures Inv(n, Apply(n, s, e))
  {
    if e.Test? && !MustWait(s, e.r) {
      WorkInv(n, s, e.r);
    }
    hide Window, Work, RingOk;
  }

  // ---------------------------------------------------------------- progress

  /** A step other than a spurious wake-up. */
  ghost predicate CanStep(s: State) {
    exists e :: Enabled(s, e) && !e.Spurious?
  }

  /** Unless both loops are over, somebody can step without the help of a spurious wake-up;
      in particular the two processes are never both asleep. */
  lemma NeverStuck(n: nat, s: State)
    requires Inv(n, s)
    ensures !(s.prod.pc.Waiting? && s.cons.pc.Waiting?)
    ensures CanStep(s) || (s.prod.pc.Finished? && s.cons.pc.Finished?)
  {
    RingIsQueue(s.ring, 0);
    hide Window;
    if s.mutex.Held? {
      var r := s.mutex.holder;
      var p := Me(s, r);
      assert InCritical(p);
      assert Enabled(s, if p.pc.Testing? then Test(r) else if p.pc.Worked? then Signal(r) else Unlock(r));
    } else if s.prod.pc.Idle? || s.prod.pc.Woken? {
      assert Enabled(s, Lock(Producer));
    } else if s.cons.pc.Idle? || s.cons.pc.Woken? {
      assert Enabled(s, Lock(Consumer));
    }
  }

  function Rank(p: Process): nat {
    match p.pc
    case Idle => 6
    case Testing => 5
    case Waiting => 4
    case Woken => 6
    case Worked => 4
    case Signalled => 1
    case Finished => 0
  }

  /** Decreases with every step that is not a spurious wake-up. */
  ghost function Remaining(n: nat, s: State): nat
    requires s.prod.i <= n && s.cons.i <= n
  {
    6 * (n - s.prod.i) + Rank(s.prod) + 6 * (n - s.cons.i) + Rank(s.cons)
  }

  lemma StepRemaining(n: nat, s: State, e: Step)
    requires Inv(n, s) && Enabled(s, e) && Inv(n, Apply(n, s, e))
    ensures var t := Apply(n, s, e);
            if e.Spurious? then Remaining(n, t) == Remaining(n, s) + 2 && t.spurious == s.spurious + 1
            else Remaining(n, t) < Remaining(n, s) && t.spurious == s.spurious
  {
    hide Window, RingOk;
  }

  lemma InitInv(n: nat, s: State)
    requires Init(n, s)
    ensures Inv(n, s) && s.spurious == 0 && Remaining(n, s) <= 12 * n + 12
  {
  }

  lemma {:induction false} RunInv(n: nat, run: seq<State>)
    requires IsRun(n, run)
    ensures Inv(n, run[|run| - 1])
    ensures |run| - 1 + Remaining(n, run[|run| - 1]) <= 12 * n + 12 + 3 * run[|run| - 1].spurious
    decreases |run|
  {
    hide Inv, Remaining, Enabled, Apply, Init;
    var k := |run| - 1;
    if k == 0 {
      InitInv(n, run[0]);
    } else {
      RunInv(n, run[..k]);
      assert Next(n, run[k - 1], run[k]);
      var e :| Enabled(run[k - 1], e) && run[k] == Apply(n, run[k - 1], e);
      StepInv(n, run[k - 1], e);
      StepRemaining(n, run[k - 1], e);
    }
  }

  /** Safety and termination for every capacity, iteration count and interleaving: consumed
      items are a prefix of the produced ones and the ring holds the difference; a run with k
      spurious wake-ups has at most 12n + 12 + 3k steps; and a run that can only go on by
      spurious wake-ups has consumed all n items in order. */
  lemma BufferCorrect(n: nat, run: seq<State>, s: State)
    requires IsRun(n, run) && s == run[|run| - 1]
    ensures RingOk(s.ring) && s.produced == s.consumed + Window(s.ring)
    ensures |s.produced| <= n && forall k :: 0 <= k < |s.produced| ==> s.produced[k] == k
    ensures !(s.prod.pc.Waiting? && s.cons.pc.Waiting?)
    ensures !(InCritical(s.prod) && InCritical(s.cons))
    ensures |run| - 1 <= 12 * n + 12 + 3 * s.spurious
    ensures !CanStep(s) ==> s.consumed == s.produced && |s.consumed| == n
                            && s.prod.pc.Finished? && s.cons.pc.Finished?
  {
    RunInv(n, run);
    NeverStuck(n, s);
  }

  // ---------------------------------------------------------------- when the processes sleep

  /** On every run: at its while test the producer goes to sleep exactly if the window of
      unconsumed items fills the ring, and the consumer exactly if it is empty. */
  lemma WhenTheySleep(n: nat, run: seq<State>, s: State)
    requires IsRun(n, run) && s == run[|run| - 1]
    ensures RingOk(s.ring)
    ensures Enabled(s, Test(Producer)) ==>
              (Apply(n, s, Test(Producer)).prod.pc.Waiting? <==> |Window(s.ring)| == |s.ring.items|)
    ensures Enabled(s, Test(Consumer)) ==>
              (Apply(n, s, Test(Consumer)).cons.pc.Waiting? <==> Window(s.ring) == [])
  {
    RunInv(n, run);
    assert |Window(s.ring)| == s.ring.size;
    hide Window, Put, Take;
  }

  lemma Extend(n: nat, run: seq<State>, e: Step) returns (longer: seq<State>)
    requires IsRun(n, run) && Enabled(run[|run| - 1], e)
    ensures IsRun(n, longer) && longer[|longer| - 1] == Apply(n, run[|run| - 1], e)
    ensures longer[0] == run[0]
  {
    hide Init, Enabled, Apply;
    longer := run + [Apply(n, run[|run| - 1], e)];
    forall i | 0 < i < |longer|
      ensures Next(n, longer[i - 1], longer[i])
    {
      if i == |run| {
        assert Enabled(longer[i - 1], e) && longer[i] == Apply(n, longer[i - 1], e);
      } else {
        assert longer[i - 1] == run[i - 1] && longer[i] == run[i];
      }
    }
  }

  /** The producer runs ahead: the whole capacity can be used before the consumer's first step. */
  lemma {:induction false} ProducerAhead(n: nat, cap: nat, k: nat) returns (run: seq<State>)
    requires cap > 0 && k <= n && k <= cap
    ensures IsRun(n, run) && RingOk(run[|run| - 1].ring)
    ensures var s := run[|run| - 1];
            && s.cons == run[0].cons && s.consumed == [] && |s.produced| == |Window(s.ring)| == k
            && |s.ring.items| == cap && s.mutex.Free? && s.prod == Process(if k < n then Idle else Finished, k)
  {
    if k == 0 {
      var p := Process(if n == 0 then Finished else Idle, 0);
      run := [State(Ring(seq(cap, _ => 0), 0, 0, 0), Free, p, p, [], [], 0)];
    } else {
      run := ProducerAhead(n, cap, k - 1);
      RunInv(n, run);
      run := Extend(n, run, Lock(Producer));
      run := Extend(n, run, Test(Producer));
      run := Extend(n, run, Signal(Producer));
      run := Extend(n, run, Unlock(Producer));
      RunInv(n, run);
    }
  }

  // ---------------------------------------------------------------- the shared memory object

  /** context_t in shared memory, updated in place by the two critical sections. */
  class Context {
    const items: array<int>
    var inn: nat
    var out: nat
    var size: nat

    ghost predicate Valid()
      reads this, items
    {
      RingOk(Abs())
    }

    ghost function Abs(): Ring
      reads this, items
    {
      Ring(items[..], inn, out, size)
    }

    constructor (capacity: nat)
      requires capacity > 0
      ensures Valid() && fresh(items) && Abs() == Ring(items[..], 0, 0, 0) && items.Length == capacity
    {
      items := new int[capacity];
      inn, out, size := 0, 0, 0;
    }

    /** The producer's critical section once there is room. */
    method Produce(item: int)
      requires Valid() && size < items.Length
      modifies this, items
      ensures Valid() && Abs() == Put(old(Abs()), item)
      ensures Window(Abs()) == old(Window(Abs())) + [item]
    {
      RingIsQueue(Abs(), item);
      items[inn] := item;
      inn := (inn + 1) % items.Length;
      size := size + 1;
    }

    /** The consumer's critical section once there is an item. */
    method Consume() returns (item: int)
      requires Valid() && size > 0
      modifies this
      ensures Valid() && Abs() == Take(old(Abs()))
      ensures old(Window(Abs())) == [item] + Window(Abs())
    {
      RingIsQueue(Abs(), 0);
      item := items[out];
      out := (out + 1) % items.Length;
      size := size - 1;
    }
  }
}

/** Two processes share a counter under a mutex; the consumer is killed inside its fourth
    critical section.  Any number of iterations and any interleaving; `robust` says whether the
    mutex was created with PTHREAD_MUTEX_ROBUST. */
module RobustMutex {

  datatype Role = Producer | Consumer

  /** A process-shared mutex.  `consistent` is false between a lock that returned EOWNERDEAD and
      pthread_mutex_consistent; unlocking before that makes the mutex unusable for ever. */
  datatype Mutex = Free | Held(owner: Role, consistent: bool) | OwnerDead | Unrecoverable

  /** Before the lock, holding an inconsistent mutex, before reading the counter, before writing
      it back, before leaving the critical section, past the loop, ended by exit(1), killed. */
  datatype Pc = Idle | Recovering | Critical | Loaded | Stored | Finished | Exited | Killed

  datatype Process = Process(pc: Pc, i: nat, reg: int)

  datatype Config = Config(iterations: nat, robust: bool)

  datatype State = State(mutex: Mutex, prod: Process, cons: Process, counter: int)

  datatype Step = Lock(r: Role) | Repair(r: Role) | Load(r: Role) | Store(r: Role) | Leave(r: Role)

  /** The iteration in which the consumer kills itself. */
  const FATAL := 3

  function Me(s: State, r: Role): Process {
    if r.Producer? then s.prod else s.cons
  }

  function SetMe(s: State, r: Role, p: Process): State {
    if r.Producer? then s.(prod := p) else s.(cons := p)
  }

  function Start(c: Config): State {
    var p := Process(if c.iterations == 0 then Finished else Idle, 0, 0);
    State(Free, p, p, 0)
  }

  predicate Enabled(s: State, e: Step) {
    var p := Me(s, e.r);
    match e
    case Lock(_) => p.pc.Idle? && !s.mutex.Held?
    case Repair(_) => p.pc.Recovering?
    case Load(_) => p.pc.Critical?
    case Store(_) => p.pc.Loaded?
    case Leave(_) => p.pc.Stored?
  }

  /** pthread_mutex_lock: only the producer treats EOWNERDEAD as success; every other error makes
      the process exit, which leaves a mutex it has just been given without an owner again. */
  function AfterLock(s: State, r: Role): State {
    var p := Me(s, r);
    match s.mutex
    case Free => SetMe(s, r, p.(pc := Critical)).(mutex := Held(r, true))
    case OwnerDead =>
      if r.Producer? then SetMe(s, r, p.(pc := Recovering)).(mutex := Held(r, false))
      else SetMe(s, r, p.(pc := Exited))
    case _ => SetMe(s, r, p.(pc := Exited))
  }

  function AfterUnlock(m: Mutex): Mutex {
    if m.Held? && m.consistent then Free else Unrecoverable
  }

  /** The end of the critical section: SIGKILL in the consumer's fourth, otherwise the unlock. */
  function AfterLeave(c: Config, s: State, r: Role): State {
    var p := Me(s, r);
    if r.Consumer? && p.i == FATAL then
      SetMe(s, r, p.(pc := Killed)).(mutex := if c.robust then OwnerDead else s.mutex)
    else
      SetMe(s, r, p.(pc := if p.i + 1 < c.iterations then Idle else Finished, i := p.i + 1))
      .(mutex := AfterUnlock(s.mutex))
  }

  function Apply(c: Config, s: State, e: Step): State
    requires Enabled(s, e)
  {
    var p := Me(s, e.r);
    match e
    case Lock(r) => AfterLock(s, r)
    case Repair(r) => SetMe(s, r, p.(pc := Critical)).(mutex := Held(r, true))
    case Load(r) => SetMe(s, r, p.(pc := Loaded, reg := s.counter))
    case Store(r) => SetMe(s, r, p.(pc := Stored)).(counter := p.reg + if r.Producer? then 1 else -1)
    case Leave(r) => AfterLeave(c, s, r)
  }

  ghost predicate Next(c: Config, s: State, t: State) {
    exists e :: Enabled(s, e) && t == Apply(c, s, e)
  }

  ghost predicate IsRun(c: Config, run: seq<State>) {
    |run| > 0 && run[0] == Start(c) && forall i :: 0 < i < |run| ==> Next(c, run[i - 1], run[i])
  }

  // ---------------------------------------------------------------- invariant

  predicate InCritical(p: Process) {
    p.pc.Recovering? || p.pc.Critical? || p.pc.Loaded? || p.pc.Stored?
  }

  /** How often a process has written the counter. */
  function Writes(p: Process): nat {
    p.i + if p.pc.Stored? || p.pc.Killed? then 1 else 0
  }

  ghost predicate ProcessOk(c: Config, s: State, r: Role) {
    var p := Me(s, r);
    && p.i <= c.iterations && (p.pc.Finished? <==> p.i == c.iterations)
    && !p.pc.Exited?
    && (InCritical(p) ==> s.mutex == Held(r, !p.pc.Recovering?))
    && (p.pc.Loaded? ==> p.reg == s.counter)
  }

  ghost predicate Inv(c: Config, s: State) {
    && ProcessOk(c, s, Producer) && ProcessOk(c, s, Consumer)
    && s.counter == Writes(s.prod) - Writes(s.cons)
    && !s.prod.pc.Killed? && !s.cons.pc.Recovering?
    && s.cons.i <= FATAL && (s.cons.pc.Killed? ==> s.cons.i == FATAL)
    && s.mutex != Unrecoverable && (s.mutex.OwnerDead? ==> s.cons.pc.Killed?)
    && (s.mutex.Held? ==>
          || InCritical(Me(s, s.mutex.owner))
          || (!c.robust && s.mutex.owner.Consumer? && s.cons.pc.Killed?))
    && (s.cons.pc.Killed? && !c.robust ==> s.mutex == Held(Consumer, true))
  }

  lemma StepInv(c: Config, s: State, e: Step)
    requires Inv(c, s) && Enabled(s, e)
    ensures Inv(c, Apply(c, s, e))
  {
  }

  // ---------------------------------------------------------------- progress

  ghost predicate CanStep(s: State) {
    exists e :: Enabled(s, e)
  }

  /** The owner of the mutex, if it is alive, can step; and so can whoever wants a mutex that
      nobody holds. */
  lemma NeverStuck(c: Config, s: State)
    requires Inv(c, s) && !CanStep(s)
    ensures s.cons.pc.Finished? || s.cons.pc.Killed?
    ensures s.prod.pc.Finished? || (!c.robust && s.cons.pc.Killed? && s.mutex == Held(Consumer, true))
  {
    if s.mutex.Held? && InCritical(Me(s, s.mutex.owner)) {
      var r := s.mutex.owner;
      var pc := Me(s, r).pc;
      var e := if pc.Recovering? then Repair(r)
               else if pc.Critical? then Load(r)
               else if pc.Loaded? then Store(r)
               else Leave(r);
      assert Enabled(s, e);
    } else {
      assert !Enabled(s, Lock(Producer)) && !Enabled(s, Lock(Consumer));
    }
  }

  function Rank(pc: Pc): nat {
    match pc
    case Idle => 5
    case Recovering => 4
    case Critical => 3
    case Loaded => 2
    case Stored => 1
    case _ => 0
  }

  function Remaining(c: Config, p: Process): int {
    5 * (c.iterations - p.i) + Rank(p.pc)
  }

  lemma StepRemaining(c: Config, s: State, e: Step)
    requires Inv(c, s) && Enabled(s, e)
    ensures var t := Apply(c, s, e);
            Remaining(c, t.prod) + Remaining(c, t.cons) < Remaining(c, s.prod) + Remaining(c, s.cons)
  {
  }

  lemma StartInv(c: Config)
    ensures Inv(c, Start(c))
    ensures Remaining(c, Start(c).prod) + Remaining(c, Start(c).cons) <= 10 * c.iterations + 10
  {
  }

  lemma {:induction false} RunInv(c: Config, run: seq<State>)
    requires IsRun(c, run)
    ensures var s := run[|run| - 1];
            Inv(c, s) && |run| - 1 + Remaining(c, s.prod) + Remaining(c, s.cons) <= 10 * c.iterations + 10
    decreases |run|
  {
    hide Inv, Remaining, Enabled, Apply, Start;
    var k := |run| - 1;
    if k == 0 {
      StartInv(c);
    } else {
      RunInv(c, run[..k]);
      assert Next(c, run[k - 1], run[k]);
      var e :| Enabled(run[k - 1], e) && run[k] == Apply(c, run[k - 1], e);
      StepInv(c, run[k - 1], e);
      StepRemaining(c, run[k - 1], e);
    }
  }

  /** Every run, for every number of iterations: never two live processes in the critical
      section, no error exit, a counter that stays in the range of int, and at most 10n + 10
      steps.  With a robust mutex (or fewer than four iterations) a run that cannot go on has
      finished the producer and left the counter at n minus the consumer's at most four
      decrements. */
  lemma CrashRecovery(c: Config, run: seq<State>, s: State)
    requires IsRun(c, run) && s == run[|run| - 1]
    ensures !(InCritical(s.prod) && InCritical(s.cons))
    ensures !s.prod.pc.Exited? && !s.cons.pc.Exited? && s.mutex != Unrecoverable
    ensures -4 <= s.counter <= c.iterations
    ensures |run| <= 10 * c.iterations + 11
    ensures (c.robust || c.iterations < 4) && !CanStep(s) ==>
              && s.prod.pc.Finished?
              && s.cons.pc == (if c.iterations < 4 then Finished else Killed)
              && s.counter == c.iterations - if c.iterations < 4 then c.iterations else 4
  {
    RunInv(c, run);
    if !CanStep(s) {
      NeverStuck(c, s);
    }
  }

  /** Why the producer repairs the mutex: leaving the critical section with it still inconsistent
      makes every later lock of either process fail, and the process exit. */
  lemma UnrepairedMutexIsLost(c: Config, s: State, r: Role)
    requires s.mutex.OwnerDead? && s.prod.pc.Idle?
    ensures var t := AfterLock(s, Producer);
            && t.prod.pc.Recovering?
            && var u := AfterLeave(c, t, Producer);
               AfterLock(u, r).mutex == u.mutex == Unrecoverable && Me(AfterLock(u, r), r).pc.Exited?
  {
    assert AfterLock(s, Producer).mutex == Held(Producer, false);
  }

  // ---------------------------------------------------------------- without robustness

  lemma Extend(c: Config, run: seq<State>, e: Step) returns (longer: seq<State>)
    requires IsRun(c, run) && Enabled(run[|run| - 1], e)
    ensures IsRun(c, longer) && longer[|longer| - 1] == Apply(c, run[|run| - 1], e)
  {
    longer := run + [Apply(c, run[|run| - 1], e)];
    forall i | 0 < i < |longer|
      ensures Next(c, longer[i - 1], longer[i])
    {
      if i == |run| {
        assert Enabled(longer[i - 1], e) && longer[i] == Apply(c, longer[i - 1], e);
      } else {
        assert longer[i - 1] == run[i - 1] && longer[i] == run[i];
      }
    }
  }

  /** The consumer's first k iterations, taken before the producer's first. */
  lemma {:induction false} ConsumerFirst(c: Config, k: nat) returns (run: seq<State>)
    requires k <= FATAL < c.iterations
    ensures IsRun(c, run)
    ensures var s := run[|run| - 1]; s.mutex == Free && s.prod == Start(c).prod && s.cons.pc.Idle? && s.cons.i == k
  {
    if k == 0 {
      run := [Start(c)];
    } else {
      run := ConsumerFirst(c, k - 1);
      run := ConsumerStores(c, run);
      run := Extend(c, run, Leave(Consumer));
    }
  }

  lemma ConsumerStores(c: Config, run: seq<State>) returns (longer: seq<State>)
    requires IsRun(c, run)
    requires var s := run[|run| - 1]; s.mutex == Free && s.cons.pc.Idle?
    ensures IsRun(c, longer)
    ensures var s, t := run[|run| - 1], longer[|longer| - 1];
            t.mutex == Held(Consumer, true) && t.prod == s.prod && t.cons.pc.Stored? && t.cons.i == s.cons.i
  {
    longer := Extend(c, run, Lock(Consumer));
    longer := Extend(c, longer, Load(Consumer));
    longer := Extend(c, longer, Store(Consumer));
  }

  /** With an ordinary mutex and at least four iterations there is a run in which the producer
      waits for ever for its first lock. */
  lemma OrdinaryMutexBlocks(c: Config) returns (run: seq<State>)
    requires !c.robust && c.iterations >= 4
    ensures IsRun(c, run)
    ensures var s := run[|run| - 1]; !CanStep(s) && s.prod.pc.Idle? && s.prod.i == 0 && s.cons.pc.Killed?
  {
    run := ConsumerFirst(c, FATAL);
    run := ConsumerStores(c, run);
    run := Extend(c, run, Leave(Consumer));
  }

  /** Every run that cannot go on has finished the producer. */
  ghost predicate ProducerAlwaysFinishes(c: Config) {
    forall run: seq<State> :: IsRun(c, run) && !CanStep(run[|run| - 1]) ==> run[|run| - 1].prod.pc.Finished?
  }

  /** The robust attribute is what the program needs, exactly when the consumer gets as far as
      its fourth iteration. */
  lemma RobustnessNeeded(c: Config)
    ensures ProducerAlwaysFinishes(c) <==> c.robust || c.iterations < 4
  {
    if c.robust || c.iterations < 4 {
      forall run: seq<State> | IsRun(c, run) && !CanStep(run[|run| - 1])
        ensures run[|run| - 1].prod.pc.Finished?
      {
        CrashRecovery(c, run, run[|run| - 1]);
      }
    } else {
      var run := OrdinaryMutexBlocks(c);
      assert IsRun(c, run) && !CanStep(run[|run| - 1]);
    }
  }

  // ---------------------------------------------------------------- the shared memory object

  /** context_t with its mutex, and the one critical section of each process. */
  class Context {
    var mutex: Mutex
    var counter: int

    constructor ()
      ensures mutex == Free && counter == 0
    {
      mutex, counter := Free, 0;
    }

    /** One iteration of the producer, from a mutex it can have at once: it always ends with the
        counter incremented and the mutex free and consistent, also after the other's death. */
    method Produce()
      requires mutex.Free? || mutex.OwnerDead?
      modifies this
      ensures mutex == Free && counter == old(counter) + 1
    {
      var err := mutex.OwnerDead?;
      mutex := Held(Producer, !err);
      if err {
        mutex := Held(Producer, true);
      }
      counter := counter + 1;
      mutex := AfterUnlock(mutex);
    }

    /** One iteration of the consumer; `alive` is false if it was killed. */
    method Consume(i: nat, robust: bool) returns (alive: bool)
      requires mutex.Free?
      modifies this
      ensures counter == old(counter) - 1 && alive == (i != 3)
      ensures mutex == if alive then Free else if robust then OwnerDead else Held(Consumer, true)
    {
      mutex := Held(Consumer, true);
      counter := counter - 1;
      if i == FATAL {
        if robust {
          mutex := OwnerDead;
        }
        return false;
      }
      mutex := AfterUnlock(mutex);
      return true;
    }
  }
}

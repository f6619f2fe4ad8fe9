/** One-shot queue notification, re-armed before draining.  The kernel side follows
    mq_notify() of POSIX.1-2017 (System Interfaces): one registration at a time, consumed when
    a message arrives on an empty queue, and then a handler thread is started.  Handlers may
    run concurrently with each other and with any number of senders. */
module Notification {

  datatype Message = Message(text: string)

  /** A handler thread: about to register again, receiving until EAGAIN, or returned. */
  datatype Handler = Starting | Draining | Finished

  /** `cap` is the queue's mq_maxmsg (4 in the forum, 10 in the chat server); `failed` records that
      mq_notify or mq_receive reported an error the code treats as fatal. */
  datatype State = State(
    cap: nat,
    queue: seq<Message>,
    armed: bool,
    handlers: seq<Handler>,
    sent: seq<Message>,
    received: seq<Message>,
    failed: bool)

  datatype Step = Send(m: Message) | Register(h: nat) | Receive(h: nat) | Stop(h: nat)

  /** The process starts with its main thread calling the handler itself, on a queue that may
      already hold messages. */
  ghost predicate Init(s: State) {
    && s.sent == s.queue && |s.queue| <= s.cap
    && !s.armed && s.handlers == [Starting] && s.received == [] && !s.failed
  }

  predicate Enabled(s: State, e: Step) {
    match e
    case Send(_) => |s.queue| < s.cap
    case Register(h) => h < |s.handlers| && s.handlers[h] == Starting
    case Receive(h) => h < |s.handlers| && s.handlers[h] == Draining && s.queue != []
    case Stop(h) => h < |s.handlers| && s.handlers[h] == Draining && s.queue == []
  }

  function Apply(s: State, e: Step): State
    requires Enabled(s, e)
  {
    match e
    case Send(m) =>
      var t := s.(queue := s.queue + [m], sent := s.sent + [m]);
      if s.queue == [] && s.armed then t.(armed := false, handlers := s.handlers + [Starting]) else t
    case Register(h) =>
      if s.armed then s.(failed := true)
      else s.(armed := true, handlers := s.handlers[h := Draining])
    case Receive(h) => s.(queue := s.queue[1..], received := s.received + [s.queue[0]])
    case Stop(h) => s.(handlers := s.handlers[h := Finished])
  }

  ghost predicate Next(s: State, t: State) {
    exists e :: Enabled(s, e) && t == Apply(s, e)
  }

  ghost predicate IsRun(run: seq<State>) {
    |run| > 0 && Init(run[0]) && forall i :: 0 < i < |run| ==> Next(run[i - 1], run[i])
  }

  // ---------------------------------------------------------------- the token

  /** How many handlers have not registered again yet. */
  function Unarmed(handlers: seq<Handler>): nat {
    if handlers == [] then 0
    else Unarmed(handlers[..|handlers| - 1]) + if handlers[|handlers| - 1] == Starting then 1 else 0
  }

  /** How many steps the handlers can take on an empty queue. */
  function Effort(handlers: seq<Handler>): nat {
    if handlers == [] then 0
    else Effort(handlers[..|handlers| - 1]) + HandlerEffort(handlers[|handlers| - 1])
  }

  function HandlerEffort(h: Handler): nat {
    match h case Starting => 2 case Draining => 1 case Finished => 0
  }

  ghost predicate Alive(s: State, h: nat) {
    h < |s.handlers| && s.handlers[h] != Finished
  }

  /** Exactly one token exists: the registration, or one handler that will re-create it.  A
      non-empty queue is always being looked after.  No message is lost, repeated or reordered. */
  ghost predicate Inv(s: State) {
    && !s.failed && |s.queue| <= s.cap
    && Unarmed(s.handlers) + (if s.armed then 1 else 0) == 1
    && (s.queue != [] ==> exists h :: Alive(s, h))
    && s.received + s.queue == s.sent
  }

  lemma {:induction false} HandlersUpdate(hs: seq<Handler>, h: nat, x: Handler)
    requires h < |hs|
    ensures Unarmed(hs[h := x]) == Unarmed(hs) - (if hs[h] == Starting then 1 else 0)
                                   + (if x == Starting then 1 else 0)
    ensures Effort(hs[h := x]) == Effort(hs) - HandlerEffort(hs[h]) + HandlerEffort(x)
  {
    var n := |hs| - 1;
    if h == n {
      assert hs[h := x][..n] == hs[..n];
    } else {
      HandlersUpdate(hs[..n], h, x);
      assert hs[h := x][..n] == hs[..n][h := x];
    }
  }

  lemma HandlersAppend(hs: seq<Handler>)
    ensures Unarmed(hs + [Starting]) == Unarmed(hs) + 1
    ensures Effort(hs + [Starting]) == Effort(hs) + 2
  {
    assert (hs + [Starting])[..|hs|] == hs;
  }

  lemma {:induction false} UnarmedExists(hs: seq<Handler>) returns (h: nat)
    requires Unarmed(hs) > 0
    ensures h < |hs| && hs[h] == Starting
  {
    h := |hs| - 1;
    if hs[h] != Starting {
      h := UnarmedExists(hs[..h]);
    }
  }

  lemma {:induction false} UnarmedCounts(hs: seq<Handler>, h: nat)
    requires h < |hs| && hs[h] == Starting
    ensures Unarmed(hs) > 0
  {
    if h < |hs| - 1 {
      UnarmedCounts(hs[..|hs| - 1], h);
    }
  }

  lemma SendInv(s: State, m: Message)
    requires Inv(s) && Enabled(s, Send(m))
    ensures Inv(Apply(s, Send(m)))
  {
    var t := Apply(s, Send(m));
    HandlersAppend(s.handlers);
    assert t.received + t.queue == t.sent;
    if s.queue != [] {
      var h :| Alive(s, h);
      assert Alive(t, h);
    } else if s.armed {
      assert Alive(t, |s.handlers|);
    } else {
      var h := UnarmedExists(s.handlers);
      assert Alive(t, h);
    }
  }

  lemma HandlerInv(s: State, e: Step)
    requires Inv(s) && Enabled(s, e) && !e.Send?
    ensures Inv(Apply(s, e))
  {
    var t := Apply(s, e);
    match e
    case Register(h) =>
      UnarmedCounts(s.handlers, h);
      HandlersUpdate(s.handlers, h, Draining);
      assert Alive(t, h);
    case Receive(h) =>
      assert Alive(t, h);
      assert s.queue == [s.queue[0]] + t.queue;
      assert t.received + t.queue == s.received + s.queue;
    case Stop(h) =>
      HandlersUpdate(s.handlers, h, Finished);
  }

  // ---------------------------------------------------------------- progress

  /** Handler steps still possible if nothing more is sent. */
  function Work(s: State): nat {
    |s.queue| + Effort(s.handlers)
  }

  lemma StepWork(s: State, e: Step)
    requires Inv(s) && Enabled(s, e)
    ensures e.Send? ==> Work(Apply(s, e)) <= Work(s) + 3 && |Apply(s, e).sent| == |s.sent| + 1
    ensures !e.Send? ==> Work(Apply(s, e)) < Work(s) && Apply(s, e).sent == s.sent
  {
    match e
    case Send(_) => HandlersAppend(s.handlers);
    case Register(h) =>
      UnarmedCounts(s.handlers, h);
      HandlersUpdate(s.handlers, h, Draining);
    case Receive(_) =>
    case Stop(h) => HandlersUpdate(s.handlers, h, Finished);
  }

  lemma {:induction false} RunInv(run: seq<State>)
    requires IsRun(run)
    ensures Inv(run[|run| - 1])
    ensures |run| - 1 + Work(run[|run| - 1]) <= Work(run[0]) + 4 * (|run[|run| - 1].sent| - |run[0].sent|)
    decreases |run|
  {
    var n := |run| - 1;
    if n == 0 {
      assert Unarmed([Starting]) == 1;
      assert Alive(run[0], 0);
    } else {
      RunInv(run[..n]);
      assert Next(run[n - 1], run[n]);
      var e :| Enabled(run[n - 1], e) && run[n] == Apply(run[n - 1], e);
      StepWork(run[n - 1], e);
      if e.Send? { SendInv(run[n - 1], e.m); } else { HandlerInv(run[n - 1], e); }
    }
  }

  // ---------------------------------------------------------------- results

  /** Every handler thread has returned. */
  ghost predicate Quiet(s: State) {
    forall h :: 0 <= h < |s.handlers| ==> s.handlers[h] == Finished
  }

  lemma QuietUnarmed(s: State)
    requires Inv(s) && Quiet(s)
    ensures s.armed
  {
    if !s.armed {
      var h := UnarmedExists(s.handlers);
    }
  }

  /** No notification is ever lost: on every run, with any number of concurrent handlers and
      senders, registering never collides, messages are received in order and at most once,
      and whenever no handler is left everything sent has been received and the registration
      is in place for the next message.  A run with k sends has at most Work + 4k steps. */
  lemma NothingLost(run: seq<State>, s: State)
    requires IsRun(run) && s == run[|run| - 1]
    ensures !s.failed && s.received <= s.sent
    ensures Unarmed(s.handlers) + (if s.armed then 1 else 0) == 1
    ensures s.queue != [] ==> exists h :: Alive(s, h)
    ensures Quiet(s) ==> s.received == s.sent && s.armed
    ensures |run| - 1 <= Work(run[0]) + 4 * (|s.sent| - |run[0].sent|)
  {
    RunInv(run);
    if Quiet(s) {
      QuietUnarmed(s);
    }
  }

  /** A handler that has not returned can always step, so only quiet states lack a handler step. */
  lemma HandlersNeverBlock(s: State)
    ensures Quiet(s) <==> forall e: Step :: !e.Send? ==> !Enabled(s, e)
  {
    if !Quiet(s) {
      var h :| 0 <= h < |s.handlers| && s.handlers[h] != Finished;
      var e := if s.handlers[h] == Starting then Register(h)
               else if s.queue == [] then Stop(h) else Receive(h);
      assert Enabled(s, e);
    }
  }

  // ---------------------------------------------------------------- the code

  lemma Extend(run: seq<State>, e: Step) returns (longer: seq<State>)
    requires IsRun(run) && Enabled(run[|run| - 1], e)
    ensures IsRun(longer) && longer[|longer| - 1] == Apply(run[|run| - 1], e)
  {
    hide Init, Enabled, Apply;
    longer := run + [Apply(run[|run| - 1], e)];
    forall i | 0 < i < |longer|
      ensures Next(longer[i - 1], longer[i])
    {
      if i == |run| {
        assert Enabled(longer[i - 1], e) && longer[i] == Apply(longer[i - 1], e);
      } else {
        assert longer[i - 1] == run[i - 1] && longer[i] == run[i];
      }
    }
  }

  /** One message after the other: each is notified to a handler of its own, which receives it and
      returns, so any sequence of messages gets through a queue with room for one. */
  lemma {:induction false} AnyMessagesDelivered(cap: nat, ms: seq<Message>) returns (run: seq<State>)
    requires cap > 0
    ensures IsRun(run) && run[|run| - 1].cap == cap
    ensures var s := run[|run| - 1];
            && s.received == s.sent == ms && s.queue == [] && s.armed
            && |s.handlers| == 1 + |ms| && forall h :: 0 <= h < |s.handlers| ==> s.handlers[h] == Finished
  {
    if ms == [] {
      run := [State(cap, [], false, [Starting], [], [], false)];
      run := Extend(run, Register(0));
      run := Extend(run, Stop(0));
    } else {
      var n := |ms| - 1;
      run := AnyMessagesDelivered(cap, ms[..n]);
      var h := |run[|run| - 1].handlers|;
      run := Extend(run, Send(ms[n]));
      run := Extend(run, Register(h));
      run := Extend(run, Receive(h));
      run := Extend(run, Stop(h));
      assert ms == ms[..n] + [ms[n]];
    }
  }

  /** The receiving process and its queue, updated in place. */
  class Process {
    const cap: nat
    var queue: seq<Message>
    var armed: bool
    var handlers: seq<Handler>
    var sent: seq<Message>
    var received: seq<Message>
    var failed: bool

    ghost function Abs(): State
      reads this
    {
      State(cap, queue, armed, handlers, sent, received, failed)
    }

    /** child_work up to its own call of the handler. */
    constructor (cap: nat, waiting: seq<Message>)
      requires |waiting| <= cap
      ensures Init(Abs())
    {
      this.cap := cap;
      queue, sent := waiting, waiting;
      armed, failed := false, false;
      handlers, received := [Starting], [];
    }

    /** mq_send by any process, together with the kernel's notification. */
    method MqSend(m: Message)
      requires Enabled(Abs(), Send(m))
      modifies this
      ensures Abs() == Apply(old(Abs()), Send(m))
    {
      if queue == [] && armed {
        armed := false;
        handlers := handlers + [Starting];
      }
      queue := queue + [m];
      sent := sent + [m];
    }

    /** register_notification, called by handler h; false is the fatal EBUSY. */
    method RegisterNotification(h: nat) returns (ok: bool)
      requires Enabled(Abs(), Register(h))
      modifies this
      ensures Abs() == Apply(old(Abs()), Register(h)) && ok == !old(armed)
    {
      ok := !armed;
      if ok {
        armed := true;
        handlers := handlers[h := Draining];
      } else {
        failed := true;
      }
    }

    /** One turn of the handler's receive loop; false is EAGAIN, on which it returns. */
    method ReceiveOne(h: nat) returns (more: bool)
      requires h < |handlers| && handlers[h] == Draining
      modifies this
      ensures more == (old(queue) != [])
      ensures Abs() == Apply(old(Abs()), if more then Receive(h) else Stop(h))
    {
      more := queue != [];
      if more {
        received := received + [queue[0]];
        queue := queue[1..];
      } else {
        handlers := handlers[h := Finished];
      }
    }

    /** The whole handler when nothing interferes: it leaves the registration armed, the
        queue empty and everything that was waiting received. */
    method HandleMessages(h: nat)
      requires Inv(Abs()) && Enabled(Abs(), Register(h))
      modifies this
      ensures Inv(Abs()) && armed && queue == [] && sent == old(sent)
      ensures received == old(received) + old(queue)
      ensures handlers == old(handlers)[h := Finished]
    {
      HandlerInv(Abs(), Register(h));
      hide Unarmed, Effort;
      var ok := RegisterNotification(h);
      var more := true;
      while more
        invariant Inv(Abs()) && sent == old(sent) && received + queue == old(received) + old(queue)
        invariant more ==> handlers == old(handlers)[h := Draining]
        invariant !more ==> handlers == old(handlers)[h := Finished] && queue == []
        invariant armed
        decreases |queue|, more
      {
        HandlerInv(Abs(), if queue != [] then Receive(h) else Stop(h));
        ghost var q := queue;
        more := ReceiveOne(h);
        assert q != [] ==> q == [q[0]] + queue;
      }
    }
  }
}

/** The whispering game: a parent sends the words of a sentence, then "!", into a chain of m
    clients joined by m + 1 message queues of capacity 2, and only then collects the words from
    the last queue.  Each client forwards a possibly mangled copy of each word and leaves when
    it has forwarded "!". */
module WhisperingRing {
  import opened Common

  const MQ_MSG_COUNT: nat := 2

  /** A message is the C string its receiver sees. */
  datatype Message = Message(text: string)

  predicate IsBang(m: Message) {
    |m.text| > 0 && m.text[0] == '!'
  }

  const BANG: Message := Message("!")

  /** The set-up: m clients, the words, and the mangling probability p in percent. */
  datatype Game = Game(m: nat, words: seq<Message>, p: int)

  ghost predicate ValidGame(g: Game) {
    forall k :: 0 <= k < |g.words| ==> !IsBang(g.words[k])
  }

  function Input(g: Game): seq<Message> {
    g.words + [BANG]
  }

  /** b is a with some letters replaced by lower-case ones (none when p <= 0); a terminator
      stays what it is. */
  ghost predicate Derived(p: int, a: Message, b: Message) {
    && |b.text| == |a.text|
    && (forall i :: 0 <= i < |a.text| ==> b.text[i] == a.text[i] || (p > 0 && 'a' <= b.text[i] <= 'z'))
    && (IsBang(a) ==> b == a)
  }

  ghost predicate AllDerived(p: int, a: seq<Message>, b: seq<Message>) {
    |a| == |b| && forall k :: 0 <= k < |a| ==> Derived(p, a[k], b[k])
  }

  datatype Client = Idle | Holding(msg: Message) | Left

  function Held(c: Client): seq<Message> {
    if c.Holding? then [c.msg] else []
  }

  function HeldCount(c: Client): nat {
    if c.Holding? then 1 else 0
  }

  /** Client j reads q[j] and writes q[j + 1]; the parent writes q[0] and reads q[m]. */
  datatype State = State(sent: nat, q: seq<seq<Message>>, cl: seq<Client>, got: seq<Message>)

  datatype Step = ParentSend | ParentReceive | Receive(j: nat) | Forward(j: nat, out: Message)

  ghost predicate Shape(g: Game, s: State) {
    |s.q| == g.m + 1 && |s.cl| == g.m && s.sent <= |g.words| + 1
  }

  ghost predicate Init(g: Game, s: State) {
    Shape(g, s) && s.sent == 0 && s.got == []
    && (forall j :: 0 <= j <= g.m ==> s.q[j] == []) && (forall j :: 0 <= j < g.m ==> s.cl[j] == Idle)
  }

  ghost predicate Enabled(g: Game, s: State, e: Step) {
    Shape(g, s) &&
    match e
    case ParentSend => s.sent <= |g.words| && |s.q[0]| < MQ_MSG_COUNT
    case ParentReceive => s.sent == |g.words| + 1 && |s.got| < |g.words| && s.q[g.m] != []
    case Receive(j) => j < g.m && s.cl[j].Idle? && s.q[j] != []
    case Forward(j, out) => && j < g.m && s.cl[j].Holding? && |s.q[j + 1]| < MQ_MSG_COUNT
                            && Derived(g.p, s.cl[j].msg, out)
                            && (IsBang(s.cl[j].msg) ==> out == BANG)
  }

  function Apply(g: Game, s: State, e: Step): State
    requires Enabled(g, s, e)
  {
    match e
    case ParentSend => s.(sent := s.sent + 1, q := s.q[0 := s.q[0] + [Input(g)[s.sent]]])
    case ParentReceive => s.(got := s.got + [s.q[g.m][0]], q := s.q[g.m := s.q[g.m][1..]])
    case Receive(j) => s.(cl := s.cl[j := Holding(s.q[j][0])], q := s.q[j := s.q[j][1..]])
    case Forward(j, out) => s.(cl := s.cl[j := if IsBang(s.cl[j].msg) then Left else Idle],
                               q := s.q[j + 1 := s.q[j + 1] + [out]])
  }

  ghost predicate Next(g: Game, s: State, t: State) {
    exists e :: Enabled(g, s, e) && t == Apply(g, s, e)
  }

  ghost predicate IsRun(g: Game, run: seq<State>) {
    |run| > 0 && Init(g, run[0]) && forall i :: 0 < i < |run| ==> Next(g, run[i - 1], run[i])
  }

  /** Nobody can take a step. */
  ghost predicate Stuck(g: Game, s: State) {
    forall e :: !Enabled(g, s, e)
  }

  // ---------------------------------------------------------------- the stream in flight

  /** Everything in q[0..j] and in the clients between them, most advanced first. */
  ghost function Upto(q: seq<seq<Message>>, cl: seq<Client>, j: nat): seq<Message>
    requires j < |q| && j <= |cl|
  {
    if j == 0 then q[0] else q[j] + Held(cl[j - 1]) + Upto(q, cl, j - 1)
  }

  lemma {:induction false} UptoFrame(q: seq<seq<Message>>, cl: seq<Client>,
                                     q': seq<seq<Message>>, cl': seq<Client>, j: nat)
    requires j < |q| == |q'| && j <= |cl| == |cl'|
    requires q[..j + 1] == q'[..j + 1] && cl[..j] == cl'[..j]
    ensures Upto(q, cl, j) == Upto(q', cl', j)
  {
    assert q[j] == q[..j + 1][j] == q'[..j + 1][j] == q'[j];
    if j > 0 {
      assert cl[j - 1] == cl[..j][j - 1] == cl'[..j][j - 1] == cl'[j - 1];
      assert q[..j] == q[..j + 1][..j] == q'[..j];
      assert cl[..j - 1] == cl[..j][..j - 1] == cl'[..j - 1];
      UptoFrame(q, cl, q', cl', j - 1);
    }
  }

  /** How many messages that is. */
  ghost function Count(q: seq<seq<Message>>, cl: seq<Client>, j: nat): nat
    requires j < |q| && j <= |cl|
  {
    |q[j]| + if j == 0 then 0 else HeldCount(cl[j - 1]) + Count(q, cl, j - 1)
  }

  lemma {:induction false} CountIsLength(q: seq<seq<Message>>, cl: seq<Client>, j: nat)
    requires j < |q| && j <= |cl|
    ensures |Upto(q, cl, j)| == Count(q, cl, j)
  {
    if j > 0 {
      CountIsLength(q, cl, j - 1);
    }
  }

  /** An upper part holds at least what the lower parts hold. */
  lemma {:induction false} CountMonotone(q: seq<seq<Message>>, cl: seq<Client>, i: nat, j: nat)
    requires i < j < |q| && j <= |cl|
    ensures Count(q, cl, i) + HeldCount(cl[i]) + |q[j]| <= Count(q, cl, j)
  {
    if i < j - 1 {
      CountMonotone(q, cl, i, j - 1);
    }
  }

  /** How a step changes the number of messages in q[0..i]. */
  lemma {:induction false} CountStep(g: Game, s: State, e: Step, i: nat)
    requires Enabled(g, s, e) && i <= g.m
    ensures Count(Apply(g, s, e).q, Apply(g, s, e).cl, i) == Count(s.q, s.cl, i) + Change(g, e, i)
  {
    hide Derived;
    if i > 0 {
      CountStep(g, s, e, i - 1);
    }
  }

  function Change(g: Game, e: Step, i: nat): int {
    match e
    case ParentSend => 1
    case ParentReceive => if i == g.m then -1 else 0
    case Receive(j) => if i == j then -1 else 0
    case Forward(_, _) => 0
  }

  lemma UptoReceiveHere(g: Game, s: State, j: nat)
    requires Enabled(g, s, Receive(j))
    ensures var t := Apply(g, s, Receive(j));
            Upto(s.q, s.cl, j) == [s.q[j][0]] + Upto(t.q, t.cl, j)
  {
    var t := Apply(g, s, Receive(j));
    assert s.q[j] == [s.q[j][0]] + t.q[j];
    if j > 0 {
      assert Upto(s.q, s.cl, j - 1) == Upto(t.q, t.cl, j - 1) by {
        UptoFrame(s.q, s.cl, t.q, t.cl, j - 1);
      }
      var below := Held(s.cl[j - 1]) + Upto(s.q, s.cl, j - 1);
      assert Upto(s.q, s.cl, j) == s.q[j] + below by { Regroup(s.q[j], Held(s.cl[j - 1]), Upto(s.q, s.cl, j - 1)); }
      assert Upto(t.q, t.cl, j) == t.q[j] + below by { Regroup(t.q[j], Held(s.cl[j - 1]), Upto(t.q, t.cl, j - 1)); }
      hide Upto, Held;
      Regroup([s.q[j][0]], t.q[j], below);
    }
  }

  lemma {:induction false} UptoReceive(g: Game, s: State, j: nat, i: nat)
    requires Enabled(g, s, Receive(j)) && j < i <= g.m
    ensures var t := Apply(g, s, Receive(j));
            Upto(s.q, s.cl, i) == Upto(t.q, t.cl, i)
    decreases i
  {
    var t := Apply(g, s, Receive(j));
    if i == j + 1 {
      UptoReceiveHere(g, s, j);
      var x, below := [s.q[j][0]], Upto(t.q, t.cl, j);
      assert Upto(s.q, s.cl, i) == s.q[i] + (x + below);
      assert Upto(t.q, t.cl, i) == s.q[i] + x + below;
    } else {
      UptoReceive(g, s, j, i - 1);
    }
  }

  lemma DerivedReflexive(p: int, a: seq<Message>)
    ensures AllDerived(p, a, a)
  {
  }

  lemma AllDerivedTransitive(p: int, a: seq<Message>, b: seq<Message>, c: seq<Message>)
    requires AllDerived(p, a, b) && AllDerived(p, b, c)
    ensures AllDerived(p, a, c)
  {
    forall k | 0 <= k < |a|
      ensures Derived(p, a[k], c[k])
    {
      assert Derived(p, a[k], b[k]) && Derived(p, b[k], c[k]);
    }
  }

  lemma AllDerivedAppend(p: int, a: seq<Message>, b: seq<Message>, c: seq<Message>, d: seq<Message>)
    requires AllDerived(p, a, b) && AllDerived(p, c, d)
    ensures AllDerived(p, a + c, b + d)
  {
    hide Derived;
  }

  lemma {:induction false} UptoForward(g: Game, s: State, j: nat, out: Message, i: nat)
    requires Enabled(g, s, Forward(j, out)) && j < i <= g.m
    ensures var t := Apply(g, s, Forward(j, out));
            AllDerived(g.p, Upto(s.q, s.cl, i), Upto(t.q, t.cl, i))
    decreases i
  {
    var t := Apply(g, s, Forward(j, out));
    hide Derived;
    if i == j + 1 {
      UptoFrame(s.q, s.cl, t.q, t.cl, j);
      DerivedReflexive(g.p, s.q[i]);
      DerivedReflexive(g.p, Upto(s.q, s.cl, j));
      AllDerivedAppend(g.p, s.q[i], s.q[i], [s.cl[j].msg], [out]);
      AllDerivedAppend(g.p, s.q[i] + [s.cl[j].msg], s.q[i] + [out], Upto(s.q, s.cl, j), Upto(s.q, s.cl, j));
      assert t.q[i] + Held(t.cl[j]) == s.q[i] + [out];
    } else {
      UptoForward(g, s, j, out, i - 1);
      DerivedReflexive(g.p, s.q[i] + Held(s.cl[i - 1]));
      AllDerivedAppend(g.p, s.q[i] + Held(s.cl[i - 1]), s.q[i] + Held(s.cl[i - 1]),
                       Upto(s.q, s.cl, i - 1), Upto(t.q, t.cl, i - 1));
    }
  }

  lemma {:induction false} UptoParentSend(g: Game, s: State, i: nat)
    requires Enabled(g, s, ParentSend) && i <= g.m
    ensures var t := Apply(g, s, ParentSend);
            Upto(t.q, t.cl, i) == Upto(s.q, s.cl, i) + [Input(g)[s.sent]]
  {
    if i > 0 {
      UptoParentSend(g, s, i - 1);
    }
  }

  lemma UptoParentReceive(g: Game, s: State)
    requires Enabled(g, s, ParentReceive)
    ensures var t := Apply(g, s, ParentReceive);
            Upto(s.q, s.cl, g.m) == [s.q[g.m][0]] + Upto(t.q, t.cl, g.m)
  {
    var t := Apply(g, s, ParentReceive);
    if g.m > 0 {
      UptoFrame(s.q, s.cl, t.q, t.cl, g.m - 1);
    }
  }

  // ---------------------------------------------------------------- invariant

  /** The whole stream: what the parent has got back, then everything in flight. */
  ghost function Stream(g: Game, s: State): seq<Message>
    requires Shape(g, s)
  {
    s.got + Upto(s.q, s.cl, g.m)
  }

  /** Everything sent has passed client j. */
  ghost predicate AllPassed(g: Game, s: State, j: nat)
    requires Shape(g, s) && j < g.m
  {
    s.sent == |g.words| + 1 && Count(s.q, s.cl, j) == 0 && !s.cl[j].Holding?
  }

  ghost predicate Inv(g: Game, s: State) {
    && Shape(g, s) && |s.got| <= |g.words|
    && (s.sent <= |g.words| ==> s.got == [])
    && (forall j :: 0 <= j <= g.m ==> |s.q[j]| <= MQ_MSG_COUNT)
    && AllDerived(g.p, Input(g)[..s.sent], Stream(g, s))
    && (forall j :: 0 <= j < g.m ==> (s.cl[j].Left? <==> AllPassed(g, s, j)))
  }

  /** Number of items ahead of those in Upto(j). */
  ghost function Ahead(g: Game, s: State, j: nat): int
    requires Shape(g, s) && j <= g.m
  {
    s.sent - Count(s.q, s.cl, j)
  }

  /** The item held by client j is item Ahead(j) - 1 of the stream, and the terminator exactly
      when it is item |words|. */
  lemma HeldIsInStream(g: Game, s: State, j: nat)
    requires ValidGame(g) && Inv(g, s) && j < g.m && s.cl[j].Holding?
    ensures 1 <= Ahead(g, s, j) <= s.sent
    ensures IsBang(s.cl[j].msg) <==> Ahead(g, s, j) == |g.words| + 1
    ensures IsBang(s.cl[j].msg) ==> s.cl[j].msg == BANG
  {
    HeldStreamItem(g, s, j);
    StreamItem(g, s, Ahead(g, s, j) - 1);
  }

  lemma HeldStreamItem(g: Game, s: State, j: nat)
    requires Inv(g, s) && j < g.m && s.cl[j].Holding?
    ensures 1 <= Ahead(g, s, j) <= |Stream(g, s)| == s.sent
    ensures Stream(g, s)[Ahead(g, s, j) - 1] == s.cl[j].msg
  {
    hide AllDerived, AllPassed, Upto, Count;
    CountMonotone(s.q, s.cl, j, g.m);
    StreamLength(g, s);
    hide Inv;
    HeldAt(g, s, j, g.m);
  }

  /** Item k of the stream is derived from item k of the input. */
  lemma StreamItem(g: Game, s: State, k: nat)
    requires ValidGame(g) && Inv(g, s) && k < |Stream(g, s)|
    ensures |Stream(g, s)| == s.sent && Derived(g.p, Input(g)[k], Stream(g, s)[k])
    ensures IsBang(Stream(g, s)[k]) <==> k == |g.words|
    ensures k == |g.words| ==> Stream(g, s)[k] == BANG
  {
    assert Derived(g.p, Input(g)[..s.sent][k], Stream(g, s)[k]);
    hide AllDerived, Upto, AllPassed;
  }

  lemma {:induction false} HeldAt(g: Game, s: State, j: nat, i: nat)
    requires Shape(g, s) && j < i <= g.m && s.cl[j].Holding?
    ensures var k := Count(s.q, s.cl, i) - Count(s.q, s.cl, j) - 1;
            && |Upto(s.q, s.cl, i)| == Count(s.q, s.cl, i)
            && 0 <= k < |Upto(s.q, s.cl, i)| && Upto(s.q, s.cl, i)[k] == s.cl[j].msg
    decreases i
  {
    CountIsLength(s.q, s.cl, i - 1);
    if i > j + 1 {
      HeldAt(g, s, j, i - 1);
    }
  }

  lemma InitInv(g: Game, s: State)
    requires Init(g, s)
    ensures Inv(g, s)
  {
    EmptyCount(g, s, g.m);
    CountIsLength(s.q, s.cl, g.m);
  }

  lemma {:induction false} EmptyCount(g: Game, s: State, i: nat)
    requires Init(g, s) && i <= g.m
    ensures Count(s.q, s.cl, i) == 0
  {
    if i > 0 {
      EmptyCount(g, s, i - 1);
    }
  }

  lemma StreamStep(g: Game, s: State, e: Step)
    requires Inv(g, s) && Enabled(g, s, e)
    ensures AllDerived(g.p, Input(g)[..Apply(g, s, e).sent], Stream(g, Apply(g, s, e)))
  {
    var t := Apply(g, s, e);
    var sent := Input(g)[..s.sent];
    hide Derived;
    match e {
      case ParentSend =>
        UptoParentSend(g, s, g.m);
        var x := [Input(g)[s.sent]];
        DerivedReflexive(g.p, x);
        AllDerivedAppend(g.p, sent, Stream(g, s), x, x);
        assert Stream(g, t) == Stream(g, s) + x;
        assert Input(g)[..t.sent] == sent + x;
      case ParentReceive =>
        UptoParentReceive(g, s);
        assert Stream(g, t) == Stream(g, s);
      case Receive(j) =>
        UptoReceive(g, s, j, g.m);
        assert Stream(g, t) == Stream(g, s);
      case Forward(j, out) =>
        UptoForward(g, s, j, out, g.m);
        hide AllDerived, Upto;
        DerivedReflexive(g.p, s.got);
        AllDerivedAppend(g.p, s.got, s.got, Upto(s.q, s.cl, g.m), Upto(t.q, t.cl, g.m));
        AllDerivedTransitive(g.p, sent, Stream(g, s), Stream(g, t));
    }
  }

  /** Which clients have left is again decided by what has passed them. */
  lemma LeftStep(g: Game, s: State, e: Step, i: nat)
    requires ValidGame(g) && Inv(g, s) && Enabled(g, s, e) && i < g.m
    ensures Apply(g, s, e).cl[i].Left? <==> AllPassed(g, Apply(g, s, e), i)
  {
    CountStep(g, s, e, i);
    assert s.cl[i].Left? <==> AllPassed(g, s, i);
    if e.Receive? && e.j < i {
      CountMonotone(s.q, s.cl, e.j, i);
    }
    if e.Forward? {
      if e.j < i {
        CountMonotone(s.q, s.cl, e.j, i);
      } else if e.j == i {
        HeldIsInStream(g, s, i);
      }
    }
    hide AllDerived, Derived, Count;
  }

  lemma StreamLength(g: Game, s: State)
    requires Inv(g, s)
    ensures |Stream(g, s)| == s.sent == |s.got| + Count(s.q, s.cl, g.m)
  {
    CountIsLength(s.q, s.cl, g.m);
  }

  lemma StepInv(g: Game, s: State, e: Step)
    requires ValidGame(g) && Inv(g, s) && Enabled(g, s, e)
    ensures Inv(g, Apply(g, s, e))
  {
    StreamStep(g, s, e);
    forall i | 0 <= i < g.m
      ensures Apply(g, s, e).cl[i].Left? <==> AllPassed(g, Apply(g, s, e), i)
    {
      LeftStep(g, s, e, i);
    }
    hide AllDerived, Derived, AllPassed, Upto, Count;
  }

  // ---------------------------------------------------------------- termination

  /** Queue operations still to come on q[0..i]: each message is put into and taken out of
      every queue once. */
  ghost function Pending(g: Game, s: State, i: nat): int
    requires Shape(g, s) && i <= g.m
  {
    2 * (|g.words| + 1 - s.sent) + 2 * Count(s.q, s.cl, i) - |s.q[i]|
    + if i == 0 then 0 else Pending(g, s, i - 1)
  }

  /** Every step performs exactly one of the pending queue operations. */
  lemma {:induction false} PendingStep(g: Game, s: State, e: Step, i: nat)
    requires Enabled(g, s, e) && i <= g.m
    ensures Pending(g, Apply(g, s, e), i) == Pending(g, s, i)
              - (match e
                 case ParentSend => 1
                 case ParentReceive => if i == g.m then 1 else 0
                 case Receive(j) => if j <= i then 1 else 0
                 case Forward(j, _) => if j < i then 1 else 0)
    decreases i
  {
    CountStep(g, s, e, i);
    hide Derived, Count;
    if i > 0 {
      PendingStep(g, s, e, i - 1);
    }
  }

  lemma {:induction false} PendingAtStart(g: Game, s: State, i: nat, k: int)
    requires Init(g, s) && i <= g.m && k == 2 * |g.words| + 2
    ensures Pending(g, s, i) == (i + 1) * k
  {
    EmptyCount(g, s, i);
    if i > 0 {
      PendingAtStart(g, s, i - 1, k);
      assert (i + 1) * k == i * k + k;
    }
  }

  lemma {:induction false} PendingNonNegative(g: Game, s: State, i: nat)
    requires Shape(g, s) && i <= g.m
    ensures Pending(g, s, i) >= 0
  {
    if i > 0 {
      PendingNonNegative(g, s, i - 1);
    }
  }

  /** Along a run the invariant holds and the steps taken plus the pending operations are
      constant: no run is longer than 2 (m + 1) (w + 1) steps. */
  lemma {:induction false} RunInv(g: Game, run: seq<State>)
    requires ValidGame(g) && IsRun(g, run)
    ensures Inv(g, run[|run| - 1])
    ensures |run| - 1 + Pending(g, run[|run| - 1], g.m) == (g.m + 1) * (2 * |g.words| + 2)
    decreases |run|
  {
    var n := |run| - 1;
    if n == 0 {
      InitInv(g, run[0]);
      PendingAtStart(g, run[0], g.m, 2 * |g.words| + 2);
    } else {
      RunInv(g, run[..n]);
      hide Inv, Pending, Enabled, Apply, ValidGame;
      assert Next(g, run[n - 1], run[n]);
      var e :| Enabled(g, run[n - 1], e) && run[n] == Apply(g, run[n - 1], e);
      StepInv(g, run[n - 1], e);
      PendingStep(g, run[n - 1], e, g.m);
    }
  }

  // ---------------------------------------------------------------- stuck states

  /** A part of the ring cannot hold more than its queues and clients. */
  lemma {:induction false} Capacity(g: Game, s: State, i: nat)
    requires Inv(g, s) && i <= g.m
    ensures Count(s.q, s.cl, i) <= 3 * i + 2
  {
    if i > 0 {
      Capacity(g, s, i - 1);
    }
  }

  /** If the parent is stuck in a send, the ring is completely full. */
  lemma {:induction false} StuckSending(g: Game, s: State, i: nat)
    requires ValidGame(g) && Inv(g, s) && Stuck(g, s) && s.sent <= |g.words| && i <= g.m
    ensures |s.q[i]| == 2 && Count(s.q, s.cl, i) == 3 * i + 2
  {
    if i == 0 {
      assert !Enabled(g, s, ParentSend);
    } else {
      StuckSending(g, s, i - 1);
      var j := i - 1;
      assert !Enabled(g, s, Receive(j));
      assert !s.cl[j].Left?;
      StuckHolding(g, s, j);
    }
  }

  /** A client that holds a message and cannot forward it faces a full queue. */
  lemma StuckHolding(g: Game, s: State, j: nat)
    requires ValidGame(g) && Inv(g, s) && Stuck(g, s) && j < g.m && s.cl[j].Holding?
    ensures |s.q[j + 1]| == 2
  {
    assert IsBang(s.cl[j].msg) ==> s.cl[j].msg == BANG by {
      HeldIsInStream(g, s, j);
    }
    CannotForward(g, s, j);
  }

  lemma CannotForward(g: Game, s: State, j: nat)
    requires Shape(g, s) && Stuck(g, s) && j < g.m && s.cl[j].Holding?
    requires IsBang(s.cl[j].msg) ==> s.cl[j].msg == BANG
    ensures |s.q[j + 1]| >= 2
  {
    assert Derived(g.p, s.cl[j].msg, s.cl[j].msg);
    assert !Enabled(g, s, Forward(j, s.cl[j].msg));
  }

  /** If queue i is empty and nobody can step, everything below it is empty as well. */
  lemma {:induction false} StuckEmpty(g: Game, s: State, i: nat)
    requires ValidGame(g) && Inv(g, s) && Stuck(g, s) && i <= g.m && s.q[i] == []
    ensures Count(s.q, s.cl, i) == 0
  {
    if i > 0 {
      StuckBelow(g, s, i - 1);
      if s.q[i - 1] == [] {
        StuckEmpty(g, s, i - 1);
      }
    }
  }

  lemma StuckBelow(g: Game, s: State, j: nat)
    requires ValidGame(g) && Inv(g, s) && Stuck(g, s) && j < g.m && s.q[j + 1] == []
    ensures !s.cl[j].Holding? && (s.q[j] == [] || Count(s.q, s.cl, j) == 0)
  {
    if s.cl[j].Holding? {
      StuckHolding(g, s, j);
    }
    assert !Enabled(g, s, Receive(j));
    assert s.cl[j].Left? ==> AllPassed(g, s, j);
  }

  /** The game is over: everything was sent, every client has left, the parent holds one
      derived word per word, and only the terminator remains in the last queue. */
  ghost predicate Complete(g: Game, s: State) {
    && Shape(g, s) && s.sent == |g.words| + 1
    && (forall j :: 0 <= j < g.m ==> s.cl[j].Left?)
    && AllDerived(g.p, g.words, s.got)
    && Upto(s.q, s.cl, g.m) == [BANG]
  }

  /** Once the parent has sent everything, the only stuck state is the completed game. */
  lemma StuckAfterSending(g: Game, s: State)
    requires ValidGame(g) && Inv(g, s) && Stuck(g, s) && s.sent == |g.words| + 1
    ensures Complete(g, s)
  {
    StreamLength(g, s);
    assert s.q[g.m] != [] by {
      if s.q[g.m] == [] {
        StuckEmpty(g, s, g.m);
      }
    }
    assert !Enabled(g, s, ParentReceive);
    assert |s.got| == |g.words|;
    StreamSplit(g, s);
    forall j | 0 <= j < g.m
      ensures s.cl[j].Left?
    {
      CountMonotone(s.q, s.cl, j, g.m);
      assert AllPassed(g, s, j);
    }
  }

  /** A parent that has all its words has the derived sentence, and "!" is still in flight. */
  lemma StreamSplit(g: Game, s: State)
    requires ValidGame(g) && Inv(g, s) && s.sent == |g.words| + 1 && |s.got| == |g.words|
    ensures AllDerived(g.p, g.words, s.got) && Upto(s.q, s.cl, g.m) == [BANG]
  {
    StreamLength(g, s);
    forall k | 0 <= k < |g.words|
      ensures Derived(g.p, g.words[k], s.got[k])
    {
      StreamItem(g, s, k);
    }
    StreamItem(g, s, |g.words|);
  }

  // ---------------------------------------------------------------- results

  /** Capacity is exact.  No run is longer than 2 (m + 1) (w + 1) steps, so every run ends up
      stuck; a run that is stuck has completed the game if w + 1 <= 3m + 2, and otherwise the
      parent is blocked for ever in a send with every queue and client full. */
  lemma RingCapacity(g: Game, run: seq<State>, s: State)
    requires ValidGame(g) && IsRun(g, run) && s == run[|run| - 1]
    ensures |run| - 1 <= (g.m + 1) * (2 * |g.words| + 2)
    ensures s.got == [] ==> s.sent <= 3 * g.m + 2
    ensures Stuck(g, s) ==>
              if |g.words| + 1 <= 3 * g.m + 2 then Complete(g, s)
              else s.sent == 3 * g.m + 2 && s.got == []
    ensures |g.words| + 1 > 3 * g.m + 2 ==> s.sent <= |g.words|
  {
    RunInv(g, run);
    PendingNonNegative(g, s, g.m);
    StreamLength(g, s);
    Capacity(g, s, g.m);
    if |g.words| + 1 > 3 * g.m + 2 {
      NeverSendsAll(g, run);
    }
    if Stuck(g, s) {
      if s.sent <= |g.words| {
        StuckSending(g, s, g.m);
      } else {
        StuckAfterSending(g, s);
      }
    }
  }

  /** On every run, item k of the stream in flight or received is derived from message k: same
      order, same count, same lengths, and only the terminator looks like a terminator. */
  lemma StreamPreserved(g: Game, run: seq<State>, s: State)
    requires ValidGame(g) && IsRun(g, run) && s == run[|run| - 1]
    ensures Shape(g, s) && AllDerived(g.p, Input(g)[..s.sent], Stream(g, s))
    ensures forall k :: 0 <= k < |Stream(g, s)| ==> (IsBang(Stream(g, s)[k]) <==> k == |g.words|)
  {
    RunInv(g, run);
    forall k | 0 <= k < |Stream(g, s)|
      ensures IsBang(Stream(g, s)[k]) <==> k == |g.words|
    {
      StreamItem(g, s, k);
    }
  }

  /** With more messages than places the parent never gets past its last send. */
  lemma {:induction false} NeverSendsAll(g: Game, run: seq<State>)
    requires ValidGame(g) && IsRun(g, run) && |g.words| + 1 > 3 * g.m + 2
    ensures run[|run| - 1].sent <= |g.words|
    decreases |run|
  {
    var n := |run| - 1;
    if n > 0 {
      NeverSendsAll(g, run[..n]);
      RunInv(g, run[..n]);
      RunInv(g, run);
      assert Next(g, run[n - 1], run[n]);
      hide Inv;
      OneMoreSend(g, run[n - 1], run[n]);
    }
  }

  lemma OneMoreSend(g: Game, s: State, t: State)
    requires Inv(g, s) && Inv(g, t) && Next(g, s, t) && s.sent <= |g.words| && |g.words| + 1 > 3 * g.m + 2
    ensures t.sent <= |g.words|
  {
    StreamLength(g, t);
    Capacity(g, t, g.m);
    hide AllDerived, Derived, AllPassed, Upto, Count;
    assert t.got == s.got == [];
  }

  /** When the game is complete the parent's words match the sentence in number, order and
      length; with p = 0 they are the sentence. */
  lemma UnmangledGame(g: Game, s: State)
    requires Complete(g, s)
    ensures |s.got| == |g.words| && forall k :: 0 <= k < |g.words| ==> |s.got[k].text| == |g.words[k].text|
    ensures g.p <= 0 ==> s.got == g.words
  {
    forall k | 0 <= k < |g.words|
      ensures |s.got[k].text| == |g.words[k].text| && (g.p <= 0 ==> s.got[k] == g.words[k])
    {
      assert Derived(g.p, g.words[k], s.got[k]);
    }
  }

  // ---------------------------------------------------------------- the loops of the programs

  const MAX_N: nat := 256

  /** The C string at the start of a buffer: everything before the first NUL. */
  function CString(buf: seq<char>): (s: string)
    ensures |s| <= |buf| && s == buf[..|s|] && forall i :: 0 <= i < |s| ==> s[i] != '\0'
    ensures |s| < |buf| ==> buf[|s|] == '\0'
  {
    if buf == [] || buf[0] == '\0' then [] else [buf[0]] + CString(buf[1..])
  }

  lemma {:induction false} CStringIs(buf: seq<char>, n: nat)
    requires n <= |buf| && (forall i :: 0 <= i < n ==> buf[i] != '\0') && (n < |buf| ==> buf[n] == '\0')
    ensures CString(buf) == buf[..n]
  {
    if n > 0 {
      CStringIs(buf[1..], n - 1);
      assert buf[..n] == [buf[0]] + buf[1..][..n - 1];
    }
  }

  /** How many results of rand() the loop has used when it comes to character i: one for each
      character, and one more for each that it replaced. */
  function Draws(p: int, rnd: nat -> nat, i: nat): nat {
    if i == 0 then 0
    else Draws(p, rnd, i - 1) + if rnd(Draws(p, rnd, i - 1)) % 100 < p then 2 else 1
  }

  /** Character i of a message, c, after its draw. */
  function Drawn(p: int, rnd: nat -> nat, i: nat, c: char): char {
    if rnd(Draws(p, rnd, i)) % 100 < p then 'a' + (rnd(Draws(p, rnd, i) + 1) % 26) as char else c
  }

  /** The draws are taken in order from the results of rand(): one result decides whether the
      character is replaced, and only then a second one chooses the letter. */
  lemma DrawnInOrder(p: int, rnd: nat -> nat, i: nat, c: char)
    ensures Draws(p, rnd, 0) == 0
    ensures var d := Draws(p, rnd, i);
            if rnd(d) % 100 < p then
              Drawn(p, rnd, i, c) == 'a' + (rnd(d + 1) % 26) as char && Draws(p, rnd, i + 1) == d + 2
            else
              Drawn(p, rnd, i, c) == c && Draws(p, rnd, i + 1) == d + 1
  {
  }

  lemma MangledIsDerived(p: int, rnd: nat -> nat, was: seq<char>, now: seq<char>)
    requires |was| == |now| && !IsBang(Message(CString(was)))
    requires forall k :: 0 <= k < |CString(was)| ==> now[k] == Drawn(p, rnd, k, was[k])
    requires now[|CString(was)|..] == was[|CString(was)|..]
    ensures Derived(p, Message(CString(was)), Message(CString(now)))
  {
    var n := |CString(was)|;
    forall k | 0 <= k < n
      ensures now[k] == was[k] || (p > 0 && 'a' <= now[k] <= 'z')
    {
      DrawnInOrder(p, rnd, k, was[k]);
    }
    hide Drawn, Draws;
    assert n < |now| ==> now[n] == now[n..][0];
    CStringIs(now, n);
  }

  /** The mangling loop of child_work, for any sequence of rand() results: every character of the
      string is drawn, so the string becomes a derived one, and nothing behind it changes. */
  method Mangle(msg: array<char>, p: int, rnd: nat -> nat)
    requires msg.Length == MAX_N && !IsBang(Message(CString(msg[..])))
    modifies msg
    ensures Derived(p, Message(CString(old(msg[..]))), Message(CString(msg[..])))
    ensures msg[|CString(old(msg[..]))|..] == old(msg[..])[|CString(old(msg[..]))|..]
    ensures forall i :: 0 <= i < |CString(old(msg[..]))| ==> msg[i] == Drawn(p, rnd, i, old(msg[i]))
  {
    hide CString, Draws, Drawn, Derived, IsBang;
    ghost var was := msg[..];
    ghost var n := |CString(was)|;
    var calls := 0;
    var i := 0;
    DrawnInOrder(p, rnd, 0, ' ');
    while i < MAX_N
      invariant i <= n && calls == Draws(p, rnd, i)
      invariant forall k :: 0 <= k < i ==> msg[k] == Drawn(p, rnd, k, was[k])
      invariant forall k :: i <= k < MAX_N ==> msg[k] == was[k]
    {
      if msg[i] == '\0' {
        break;
      }
      DrawnInOrder(p, rnd, i, was[i]);
      if rnd(calls) % 100 < p {
        msg[i] := 'a' + (rnd(calls + 1) % 26) as char;
        calls := calls + 1;
      }
      calls := calls + 1;
      i := i + 1;
    }
    assert i == n;
    MangledIsDerived(p, rnd, was, msg[..]);
  }

  function Join(words: seq<Message>): string {
    if words == [] then ""
    else if |words| == 1 then words[0].text
    else Join(words[..|words| - 1]) + " " + words[|words| - 1].text
  }

  /** Where word k starts: behind the words before it, each with one space. */
  function Offset(words: seq<Message>, k: nat): nat
    requires k <= |words|
  {
    if k == 0 then 0 else Offset(words, k - 1) + |words[k - 1].text| + 1
  }

  lemma {:induction false} OffsetPrefix(words: seq<Message>, n: nat, k: nat)
    requires k <= n <= |words|
    ensures Offset(words[..n], k) == Offset(words, k)
  {
    if k > 0 {
      OffsetPrefix(words, n, k - 1);
    }
  }

  lemma {:induction false} JoinLength(words: seq<Message>)
    requires words != []
    ensures |Join(words)| == Offset(words, |words|) - 1
  {
    var n := |words| - 1;
    if n > 0 {
      JoinLength(words[..n]);
      OffsetPrefix(words, n, n);
      assert words[..n][..n] == words[..n];
    }
  }

  lemma SliceKept(a: string, b: string, i: nat, j: nat)
    requires i <= j <= |a|
    ensures (a + b)[i..j] == a[i..j]
    ensures 0 < i ==> (a + b)[i - 1] == a[i - 1]
  {
  }

  /** Joined words: word k stands at its offset, every later word is preceded by one space, and
      there is nothing else. */
  lemma {:induction false} JoinAt(words: seq<Message>, k: nat)
    requires k < |words|
    ensures |Join(words)| == Offset(words, |words|) - 1
    ensures Offset(words, k) + |words[k].text| <= |Join(words)|
    ensures Join(words)[Offset(words, k)..Offset(words, k) + |words[k].text|] == words[k].text
    ensures k > 0 ==> 0 < Offset(words, k) && Join(words)[Offset(words, k) - 1] == ' '
    decreases |words|
  {
    var n := |words| - 1;
    JoinLength(words);
    if n == 0 {
      assert Offset(words, 0) == 0;
    } else if k < n {
      var init := words[..n];
      JoinAt(init, k);
      OffsetPrefix(words, n, k);
      JoinLast(words);
      hide Join, Offset;
      var at := Offset(words, k);
      SliceKept(Join(init), " " + words[n].text, at, at + |words[k].text|);
    } else {
      JoinLength(words[..n]);
      OffsetPrefix(words, n, n);
      JoinLast(words);
      hide Join, Offset;
    }
  }

  lemma JoinLast(words: seq<Message>)
    requires |words| > 1
    ensures var n := |words| - 1; Join(words) == Join(words[..n]) + (" " + words[n].text)
  {
    Regroup(Join(words[..|words| - 1]), " ", words[|words| - 1].text);
  }

  /** strtok(_, " "): the non-empty stretches between spaces, in order. */
  function Tokens(s: string, word: string): (ws: seq<Message>) {
    if s == [] then (if word == "" then [] else [Message(word)])
    else if s[0] == ' ' then (if word == "" then [] else [Message(word)]) + Tokens(s[1..], "")
    else Tokens(s[1..], word + [s[0]])
  }

  ghost predicate Words(ws: seq<Message>) {
    forall k :: 0 <= k < |ws| ==> ws[k].text != "" && ' ' !in ws[k].text
  }

  lemma {:induction false} TokensOfWord(s: string, word: string, rest: string)
    requires ' ' !in s && (rest == "" || rest[0] == ' ')
    ensures Tokens(s + rest, word) == Tokens(rest, word + s)
  {
    if s == [] {
      assert s + rest == rest && word + s == word;
    } else {
      TokensOfWord(s[1..], word + [s[0]], rest);
      assert (s + rest)[1..] == s[1..] + rest && word + [s[0]] + s[1..] == word + s;
    }
  }

  lemma TokensOfOne(w: Message)
    requires w.text != "" && ' ' !in w.text
    ensures Tokens(w.text, "") == [w]
  {
    TokensOfWord(w.text, "", "");
    assert w.text + "" == w.text && "" + w.text == w.text;
  }

  /** Splitting the joined words at spaces gives the words back, in their order. */
  lemma {:induction false} TokensOfJoin(words: seq<Message>)
    requires Words(words)
    ensures Tokens(Join(words), "") == words
  {
    if |words| == 1 {
      TokensOfOne(words[0]);
    } else if |words| > 1 {
      var w := words[0];
      TokensOfJoin(words[1..]);
      JoinFirst(words);
      var rest := " " + Join(words[1..]);
      TokensOfWord(w.text, "", rest);
      assert "" + w.text == w.text && rest[1..] == Join(words[1..]);
      assert words == [w] + words[1..];
    }
  }

  lemma {:induction false} JoinFirst(words: seq<Message>)
    requires |words| > 1
    ensures Join(words) == words[0].text + (" " + Join(words[1..]))
  {
    var n := |words| - 1;
    if n > 1 {
      JoinFirst(words[..n]);
      assert words[..n][1..] == words[1..][..n - 1];
      Regroup(words[0].text, " " + Join(words[1..][..n - 1]), " " + words[n].text);
      Regroup(" ", Join(words[1..][..n - 1]), " " + words[n].text);
      Regroup(Join(words[1..][..n - 1]), " ", words[n].text);
      Regroup(Join(words[..n]), " ", words[n].text);
    } else {
      assert words[..1] == [words[0]] && words[1..] == [words[1]];
      Regroup(words[0].text, " ", words[1].text);
    }
  }

  /** The parent's collecting loop: words joined by single spaces. */
  method FinalMessage(got: seq<Message>) returns (final: string)
    ensures final == Join(got)
    ensures Words(got) ==> Tokens(final, "") == got
  {
    final := "";
    for i := 0 to |got|
      invariant final == Join(got[..i])
    {
      assert got[..i + 1][..i] == got[..i];
      if i != 0 {
        final := final + " ";
      }
      final := final + got[i].text;
    }
    assert got[..|got|] == got;
    if Words(got) {
      TokensOfJoin(got);
    }
  }

  /** A completed game without mangling: the final message, split at spaces, is the sentence. */
  lemma FinalIsSentence(g: Game, s: State)
    requires Complete(g, s) && g.p <= 0 && Words(g.words)
    ensures Tokens(Join(s.got), "") == g.words
  {
    UnmangledGame(g, s);
    TokensOfJoin(g.words);
  }

  /** strtok yields non-empty words without spaces. */
  lemma {:induction false} TokensAreWords(s: string, word: string)
    requires ' ' !in word
    ensures Words(Tokens(s, word))
  {
    if s != [] {
      if s[0] == ' ' {
        TokensAreWords(s[1..], "");
      } else {
        TokensAreWords(s[1..], word + [s[0]]);
      }
    }
  }

  /** The final message has the length of the sentence, however mangled. */
  lemma {:induction false} JoinKeepsLength(p: int, words: seq<Message>, got: seq<Message>)
    requires AllDerived(p, words, got)
    ensures |Join(got)| == |Join(words)|
    decreases |words|
  {
    var n := |words| - 1;
    if n >= 0 {
      assert Derived(p, words[n], got[n]);
      if n > 0 {
        JoinKeepsLength(p, words[..n], got[..n]);
      }
    }
  }
}

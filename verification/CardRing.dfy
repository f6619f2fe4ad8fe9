/** The card game over a ring of pipes: every player repeatedly passes one card to the right,
    takes one from the left into the same place of its hand, and leaves when the hand is of
    one suit.  The parent shuffles and deals. */
module CardRing {
  import opened Common
  import Shuffle

  const DECK_SIZE: nat := 52

  /** A hand whose cards are all of the suit of the first. */
  ghost predicate OneSuit(hand: seq<int>) {
    forall i, j :: 0 <= i < j < |hand| ==> hand[i] % 4 == hand[j] % 4
  }

  /** Two cards are of one suit exactly if their numbers differ by a multiple of four. */
  lemma SuitsAreFour(c: int, d: int)
    ensures OneSuit([c, d]) <==> (c - d) % 4 == 0
  {
    var hand := [c, d];
    assert hand[0] == c && hand[1] == d;
    if OneSuit(hand) {
      assert hand[0] % 4 == hand[1] % 4;
    }
  }

  /** Between exchanges; card of place `slot` given away and not replaced yet; out of the game. */
  datatype Pc = Ready | Sent(slot: nat) | Left

  /** Pipe i leads from player i to the next one; `sends` counts the cards a player gave. */
  datatype State = State(hands: seq<seq<int>>, pc: seq<Pc>, pipes: seq<seq<int>>, sends: seq<nat>)

  /** n players with m cards each, and the number of bytes a pipe takes before blocking. */
  datatype Game = Game(n: nat, m: nat, room: nat)

  ghost predicate ValidGame(g: Game) {
    g.n > 0 && g.m > 0 && g.room > g.n
  }

  datatype Step = Give(i: nat, slot: nat) | Take(i: nat)

  function LeftOf(g: Game, i: nat): nat
    requires i < g.n
  {
    if i == 0 then g.n - 1 else i - 1
  }

  ghost predicate Shape(g: Game, s: State) {
    && |s.hands| == |s.pc| == |s.pipes| == |s.sends| == g.n
    && (forall i :: 0 <= i < g.n ==> |s.hands[i]| == g.m && (s.pc[i].Sent? ==> s.pc[i].slot < g.m))
  }

  ghost predicate Init(g: Game, s: State) {
    Shape(g, s) && forall i :: 0 <= i < g.n ==> s.pc[i] == Ready && s.pipes[i] == [] && s.sends[i] == 0
  }

  ghost predicate Enabled(g: Game, s: State, e: Step) {
    Shape(g, s) && e.i < g.n &&
    match e
    case Give(i, slot) => s.pc[i].Ready? && slot < g.m && |s.pipes[i]| < g.room
    case Take(i) => s.pc[i].Sent? && s.pipes[LeftOf(g, i)] != []
  }

  ghost function Apply(g: Game, s: State, e: Step): State
    requires Enabled(g, s, e)
  {
    match e
    case Give(i, slot) =>
      s.(hands := s.hands[i := s.hands[i][slot := 0]],
         pc := s.pc[i := Sent(slot)],
         pipes := s.pipes[i := s.pipes[i] + [s.hands[i][slot]]],
         sends := s.sends[i := s.sends[i] + 1])
    case Take(i) =>
      var l := LeftOf(g, i);
      var hand := s.hands[i][s.pc[i].slot := s.pipes[l][0]];
      s.(hands := s.hands[i := hand],
         pc := s.pc[i := if OneSuit(hand) then Left else Ready],
         pipes := s.pipes[l := s.pipes[l][1..]])
  }

  ghost predicate Next(g: Game, s: State, t: State) {
    exists e :: Enabled(g, s, e) && t == Apply(g, s, e)
  }

  ghost predicate IsRun(g: Game, run: seq<State>) {
    |run| > 0 && Init(g, run[0]) && forall i :: 0 < i < |run| ==> Next(g, run[i - 1], run[i])
  }

  // ---------------------------------------------------------------- conservation

  /** How many copies of card c a player really has: a place being exchanged holds no card. */
  ghost function Copies(c: int, hand: seq<int>, pc: Pc): int {
    multiset(hand)[c] - if pc.Sent? && pc.slot < |hand| && hand[pc.slot] == c then 1 else 0
  }

  /** Copies of c with the first k players. */
  ghost function InHands(c: int, hands: seq<seq<int>>, pc: seq<Pc>, k: nat): int
    requires k <= |hands| == |pc|
  {
    if k == 0 then 0 else InHands(c, hands, pc, k - 1) + Copies(c, hands[k - 1], pc[k - 1])
  }

  /** Copies of c in the first k pipes. */
  ghost function InPipe(c: int, pipes: seq<seq<int>>, k: nat): int
    requires k <= |pipes|
  {
    if k == 0 then 0 else InPipe(c, pipes, k - 1) + multiset(pipes[k - 1])[c]
  }

  /** Copies of card c in the whole game, wherever they are. */
  ghost function Total(g: Game, s: State, c: int): int
    requires Shape(g, s)
  {
    InHands(c, s.hands, s.pc, g.n) + InPipe(c, s.pipes, g.n)
  }

  function IsMid(pc: Pc): nat {
    if pc.Sent? then 1 else 0
  }

  function Mid(pc: seq<Pc>, k: nat): nat
    requires k <= |pc|
  {
    if k == 0 then 0 else Mid(pc, k - 1) + IsMid(pc[k - 1])
  }

  function InPipes(pipes: seq<seq<int>>, k: nat): nat
    requires k <= |pipes|
  {
    if k == 0 then 0 else InPipes(pipes, k - 1) + |pipes[k - 1]|
  }

  lemma SetPlace(c: int, hand: seq<int>, slot: nat, x: int)
    requires slot < |hand|
    ensures multiset(hand[slot := x])[c]
            == multiset(hand)[c] - (if hand[slot] == c then 1 else 0) + (if x == c then 1 else 0)
  {
  }

  lemma {:induction false} HandsUpdate(c: int, hands: seq<seq<int>>, pc: seq<Pc>, i: nat, h: seq<int>, p: Pc, k: nat)
    requires i < |hands| == |pc| && k <= |hands|
    ensures InHands(c, hands[i := h], pc[i := p], k)
            == InHands(c, hands, pc, k) + if i < k then Copies(c, h, p) - Copies(c, hands[i], pc[i]) else 0
    ensures Mid(pc[i := p], k) == Mid(pc, k) + (if i < k then IsMid(p) - IsMid(pc[i]) else 0)
  {
    hide Copies;
    if k > 0 {
      HandsUpdate(c, hands, pc, i, h, p, k - 1);
    }
  }

  lemma {:induction false} PipesUpdate(c: int, pipes: seq<seq<int>>, i: nat, p: seq<int>, k: nat)
    requires i < |pipes| && k <= |pipes|
    ensures InPipe(c, pipes[i := p], k)
            == InPipe(c, pipes, k) + (if i < k then multiset(p)[c] as int - multiset(pipes[i])[c] as int else 0)
    ensures InPipes(pipes[i := p], k) == InPipes(pipes, k) + (if i < k then |p| - |pipes[i]| else 0)
  {
    if k > 0 {
      PipesUpdate(c, pipes, i, p, k - 1);
    }
  }

  lemma AppendCount(c: int, pipe: seq<int>, x: int)
    ensures multiset(pipe + [x])[c] == multiset(pipe)[c] + (if x == c then 1 else 0)
  {
  }

  lemma HeadCount(c: int, pipe: seq<int>)
    requires pipe != []
    ensures multiset(pipe)[c] == multiset(pipe[1..])[c] + (if pipe[0] == c then 1 else 0)
  {
    assert pipe == [pipe[0]] + pipe[1..];
  }

  /** A step moves one card and changes the number of players in mid-exchange and of cards in
      pipes alike. */
  ghost predicate Conserves(g: Game, s: State, t: State, c: int) {
    && Shape(g, s) && Shape(g, t) && Total(g, t, c) == Total(g, s, c)
    && InPipes(t.pipes, g.n) - InPipes(s.pipes, g.n) == Mid(t.pc, g.n) - Mid(s.pc, g.n)
  }

  lemma GiveConserves(g: Game, s: State, e: Step, c: int)
    requires Enabled(g, s, e) && e.Give?
    ensures Conserves(g, s, Apply(g, s, e), c)
  {
    var hand, pipe := s.hands[e.i], s.pipes[e.i];
    var x := hand[e.slot];
    SetPlace(c, hand, e.slot, 0);
    AppendCount(c, pipe, x);
    HandsUpdate(c, s.hands, s.pc, e.i, hand[e.slot := 0], Sent(e.slot), g.n);
    PipesUpdate(c, s.pipes, e.i, pipe + [x], g.n);
    hide InHands, InPipe, InPipes, Mid;
  }

  lemma TakeConserves(g: Game, s: State, e: Step, c: int)
    requires Enabled(g, s, e) && e.Take?
    ensures Conserves(g, s, Apply(g, s, e), c)
  {
    hide OneSuit;
    var l, hand, slot := LeftOf(g, e.i), s.hands[e.i], s.pc[e.i].slot;
    var pipe := s.pipes[l];
    var hand' := hand[slot := pipe[0]];
    SetPlace(c, hand, slot, pipe[0]);
    HeadCount(c, pipe);
    HandsUpdate(c, s.hands, s.pc, e.i, hand', if OneSuit(hand') then Left else Ready, g.n);
    PipesUpdate(c, s.pipes, l, pipe[1..], g.n);
    hide InHands, InPipe, InPipes, Mid;
  }

  lemma StepConserves(g: Game, s: State, e: Step, c: int)
    requires Enabled(g, s, e)
    ensures Conserves(g, s, Apply(g, s, e), c)
  {
    if e.Give? { GiveConserves(g, s, e, c); } else { TakeConserves(g, s, e, c); }
  }

  // ---------------------------------------------------------------- invariant

  /** What is in the pipe into player i: its left neighbour's sends minus its own receipts. */
  ghost predicate PipeOk(g: Game, s: State, i: nat)
    requires Shape(g, s) && i < g.n
  {
    |s.pipes[LeftOf(g, i)]| == s.sends[LeftOf(g, i)] - s.sends[i] + IsMid(s.pc[i])
  }

  ghost predicate Inv(g: Game, start: State, s: State) {
    && Shape(g, s) && Shape(g, start)
    && (forall c :: Total(g, s, c) == Total(g, start, c))
    && Mid(s.pc, g.n) == InPipes(s.pipes, g.n)
    && (forall i :: 0 <= i < g.n ==> PipeOk(g, s, i))
    && (forall i :: 0 <= i < g.n && s.pc[i].Left? ==> OneSuit(s.hands[i]))
  }

  lemma StepInv(g: Game, start: State, s: State, e: Step)
    requires ValidGame(g) && Inv(g, start, s) && Enabled(g, s, e)
    ensures Inv(g, start, Apply(g, s, e))
  {
    var t := Apply(g, s, e);
    StepConserves(g, s, e, 0);
    forall c
      ensures Total(g, t, c) == Total(g, start, c)
    {
      StepConserves(g, s, e, c);
    }
    hide OneSuit, Total, Mid, InPipes;
    forall i | 0 <= i < g.n
      ensures PipeOk(g, t, i)
    {
      StepPipe(g, s, e, i);
    }
  }

  lemma StepPipe(g: Game, s: State, e: Step, i: nat)
    requires Enabled(g, s, e) && i < g.n && PipeOk(g, s, i)
    ensures PipeOk(g, Apply(g, s, e), i)
  {
    hide OneSuit;
  }

  lemma {:induction false} StartCounts(g: Game, s: State, k: nat)
    requires Init(g, s) && k <= g.n
    ensures Mid(s.pc, k) == InPipes(s.pipes, k) == 0
  {
    if k > 0 {
      StartCounts(g, s, k - 1);
    }
  }

  lemma {:induction false} RunInv(g: Game, run: seq<State>)
    requires ValidGame(g) && IsRun(g, run)
    ensures Inv(g, run[0], run[|run| - 1])
    decreases |run|
  {
    var k := |run| - 1;
    if k == 0 {
      StartCounts(g, run[0], g.n);
    } else {
      RunInv(g, run[..k]);
      hide Total, Inv, ValidGame, Enabled, Apply;
      assert Next(g, run[k - 1], run[k]);
      var e :| Enabled(g, run[k - 1], e) && run[k] == Apply(g, run[k - 1], e);
      StepInv(g, run[0], run[k - 1], e);
    }
  }

  // ---------------------------------------------------------------- skew and progress

  /** The player d places to the right of j is at most d sends ahead of j. */
  lemma {:induction false} Skew(g: Game, start: State, s: State, j: nat, d: nat)
    requires Inv(g, start, s) && j < g.n && d < g.n
    ensures s.sends[Wrap(j + d, g.n)] <= s.sends[j] + d
  {
    if d > 0 {
      Skew(g, start, s, j, d - 1);
      var i := Wrap(j + d, g.n);
      assert LeftOf(g, i) == Wrap(j + d - 1, g.n);
      assert PipeOk(g, s, i);
      hide Total, OneSuit, Mid, InPipes;
    }
  }

  /** A pipe never holds more than n cards. */
  lemma PipeBound(g: Game, start: State, s: State, i: nat)
    requires Inv(g, start, s) && i < g.n
    ensures |s.pipes[LeftOf(g, i)]| <= g.n
  {
    Skew(g, start, s, i, g.n - 1);
    assert Wrap(i + g.n - 1, g.n) == LeftOf(g, i);
    assert PipeOk(g, s, i);
  }

  /** No write ever blocks and no read ever fails before a departure: on every run a player between
      exchanges can give any of its cards, and one in mid-exchange can go on exactly if its left
      pipe holds a card. */
  lemma GivingNeverBlocks(g: Game, run: seq<State>, s: State, i: nat, slot: nat)
    requires ValidGame(g) && IsRun(g, run) && s == run[|run| - 1] && i < g.n && slot < g.m
    ensures Shape(g, s)
    ensures s.pc[i].Ready? ==> Enabled(g, s, Give(i, slot))
    ensures s.pc[i].Sent? ==> (Enabled(g, s, Take(i)) <==> s.pipes[LeftOf(g, i)] != [])
  {
    RunInv(g, run);
    var right := Wrap(i + 1, g.n);
    assert LeftOf(g, right) == i;
    PipeBound(g, run[0], s, right);
    hide Total, InPipes, Mid;
  }

  lemma {:induction false} AllMid(pc: seq<Pc>, k: nat)
    requires k <= |pc| && forall i :: 0 <= i < k ==> pc[i].Sent?
    ensures Mid(pc, k) == k
  {
    if k > 0 {
      AllMid(pc, k - 1);
    }
  }

  lemma {:induction false} SomePipe(pipes: seq<seq<int>>, k: nat) returns (i: nat)
    requires k <= |pipes| && InPipes(pipes, k) > 0
    ensures i < k && pipes[i] != []
  {
    i := k - 1;
    if pipes[i] == [] {
      i := SomePipe(pipes, k - 1);
    }
  }

  /** Until somebody has won and left, some player can move. */
  lemma SomebodyMoves(g: Game, start: State, s: State) returns (e: Step)
    requires ValidGame(g) && Inv(g, start, s) && forall i :: 0 <= i < g.n ==> !s.pc[i].Left?
    ensures Enabled(g, s, e)
  {
    if i: nat :| i < g.n && s.pc[i].Ready? {
      var r := Wrap(i + 1, g.n);
      PipeBound(g, start, s, r);
      assert LeftOf(g, r) == i;
      e := Give(i, 0);
    } else {
      AllMid(s.pc, g.n);
      var l := SomePipe(s.pipes, g.n);
      var i := Wrap(l + 1, g.n);
      assert LeftOf(g, i) == l;
      e := Take(i);
    }
  }

  /** On every run: the cards in hands (without the places being exchanged) and in pipes are
      the cards dealt; as many cards are in pipes as players are in mid-exchange; player i is
      never more than (i - j) mod n sends ahead of player j; who left holds one suit; and as
      long as nobody left the game can go on. */
  lemma GameSafety(g: Game, run: seq<State>, s: State)
    requires ValidGame(g) && IsRun(g, run) && s == run[|run| - 1]
    ensures Shape(g, s)
    ensures Shape(g, run[0]) && forall c :: Total(g, s, c) == Total(g, run[0], c)
    ensures InPipes(s.pipes, g.n) == Mid(s.pc, g.n) <= g.n
    ensures forall i, j :: 0 <= i < g.n && 0 <= j < g.n ==>
              s.sends[i] <= s.sends[j] + (if i >= j then i - j else i - j + g.n)
    ensures forall i :: 0 <= i < g.n && s.pc[i].Left? ==> OneSuit(s.hands[i])
    ensures (forall i :: 0 <= i < g.n ==> !s.pc[i].Left?) ==> exists e :: Enabled(g, s, e)
  {
    RunInv(g, run);
    hide Total, OneSuit;
    forall i, j | 0 <= i < g.n && 0 <= j < g.n
      ensures s.sends[i] <= s.sends[j] + (if i >= j then i - j else i - j + g.n)
    {
      Skew(g, run[0], s, j, if i >= j then i - j else i - j + g.n);
    }
    MidBound(s.pc, g.n);
    if forall i :: 0 <= i < g.n ==> !s.pc[i].Left? {
      var e := SomebodyMoves(g, run[0], s);
    }
  }

  lemma {:induction false} MidBound(pc: seq<Pc>, k: nat)
    requires k <= |pc|
    ensures Mid(pc, k) <= k
  {
    if k > 0 {
      MidBound(pc, k - 1);
    }
  }

  /** A player that has exchanged a card and still plays does not hold one suit. */
  ghost predicate PlaysOn(g: Game, s: State) {
    Shape(g, s) && forall i :: 0 <= i < g.n && s.sends[i] > 0 && s.pc[i].Ready? ==> !OneSuit(s.hands[i])
  }

  /** Who completes a suit leaves at once: on every run nobody goes on playing with one. */
  lemma {:induction false} WinnersLeave(g: Game, run: seq<State>)
    requires IsRun(g, run)
    ensures PlaysOn(g, run[|run| - 1])
    decreases |run|
  {
    hide OneSuit;
    var k := |run| - 1;
    if k > 0 {
      WinnersLeave(g, run[..k]);
      assert Next(g, run[k - 1], run[k]);
      var e :| Enabled(g, run[k - 1], e) && run[k] == Apply(g, run[k - 1], e);
      StepPlaysOn(g, run[k - 1], e);
      hide Enabled, Apply, PlaysOn;
    }
  }

  lemma StepPlaysOn(g: Game, s: State, e: Step)
    requires Enabled(g, s, e) && PlaysOn(g, s)
    ensures PlaysOn(g, Apply(g, s, e))
  {
    hide OneSuit;
  }

  // ---------------------------------------------------------------- who gets whose cards

  /** The card that i gives in the step from s to t, if it does. */
  function NewlyGiven(s: State, t: State, i: nat): seq<int> {
    if i < |s.pc| && i < |t.pc| && i < |s.hands| && s.pc[i].Ready? && t.pc[i].Sent? && t.pc[i].slot < |s.hands[i]|
    then [s.hands[i][t.pc[i].slot]] else []
  }

  /** The card that i takes in the step from s to t, if it does. */
  function NewlyTaken(s: State, t: State, i: nat): seq<int> {
    if i < |s.pc| && i < |t.pc| && i < |t.hands| && s.pc[i].Sent? && !t.pc[i].Sent? && s.pc[i].slot < |t.hands[i]|
    then [t.hands[i][s.pc[i].slot]] else []
  }

  /** The cards that player i has put into its pipe during a run, in order. */
  function GivenBy(run: seq<State>, i: nat): seq<int> {
    if |run| <= 1 then []
    else GivenBy(run[..|run| - 1], i) + NewlyGiven(run[|run| - 2], run[|run| - 1], i)
  }

  /** The cards that player i has taken from its left neighbour, in order. */
  function TakenBy(run: seq<State>, i: nat): seq<int> {
    if |run| <= 1 then []
    else TakenBy(run[..|run| - 1], i) + NewlyTaken(run[|run| - 2], run[|run| - 1], i)
  }

  /** Each player gets exactly the cards its left neighbour gave, in the order given; what it has
      not taken yet is in the pipe. */
  lemma {:induction false} CardsInOrder(g: Game, run: seq<State>, i: nat)
    requires IsRun(g, run) && i < g.n
    ensures Shape(g, run[|run| - 1])
    ensures GivenBy(run, LeftOf(g, i)) == TakenBy(run, i) + run[|run| - 1].pipes[LeftOf(g, i)]
    decreases |run|
  {
    WinnersLeave(g, run);
    var k, l := |run| - 1, LeftOf(g, i);
    if k > 0 {
      CardsInOrder(g, run[..k], i);
      assert Next(g, run[k - 1], run[k]);
      var e :| Enabled(g, run[k - 1], e) && run[k] == Apply(g, run[k - 1], e);
      StepInOrder(g, run[k - 1], e, i);
      hide Enabled, Apply, Shape, IsRun, PlaysOn, NewlyGiven, NewlyTaken;
      Regroup(TakenBy(run[..k], i), run[k - 1].pipes[l], NewlyGiven(run[k - 1], run[k], l));
      Regroup(TakenBy(run[..k], i), NewlyTaken(run[k - 1], run[k], i), run[k].pipes[l]);
    }
  }

  lemma StepInOrder(g: Game, s: State, e: Step, i: nat)
    requires Enabled(g, s, e) && i < g.n && Shape(g, Apply(g, s, e))
    ensures var t, l := Apply(g, s, e), LeftOf(g, i);
            Shape(g, s) && s.pipes[l] + NewlyGiven(s, t, l) == NewlyTaken(s, t, i) + t.pipes[l]
  {
    hide OneSuit;
  }

  // ---------------------------------------------------------------- the loops of the programs

  /** check_win. */
  method CheckWin(hand: array<int>) returns (win: bool)
    requires hand.Length > 0
    ensures win <==> OneSuit(hand[..])
  {
    var color := hand[0] % 4;
    for i := 1 to hand.Length
      invariant forall k :: 0 <= k < i ==> hand[k] % 4 == color
    {
      if hand[i] % 4 != color {
        assert hand[..][0] % 4 != hand[..][i] % 4;
        return false;
      }
    }
    return true;
  }

  /** The new deck: the cards 0..51 in order. */
  function NewDeck(): (deck: seq<int>)
    ensures |deck| == 52 && forall i :: 0 <= i < 52 ==> deck[i] == i
  {
    seq(DECK_SIZE, i => i)
  }

  function SwapCards(deck: seq<int>, j: nat, k: nat): (d: seq<int>)
    requires |deck| == 52
    ensures |d| == 52
  {
    Shuffle.Swap(deck, j % 52, k % 52)
  }

  /** The deck after k random swaps, for the given results of rand(). */
  function Swapped(rnd: nat -> nat, k: nat): (deck: seq<int>)
    ensures |deck| == 52
  {
    if k == 0 then NewDeck() else SwapCards(Swapped(rnd, k - 1), rnd(2 * (k - 1)), rnd(2 * (k - 1) + 1))
  }

  lemma {:induction false} SwappedPermutes(rnd: nat -> nat, k: nat)
    ensures multiset(Swapped(rnd, k)) == multiset(NewDeck())
  {
    hide Swapped, SwapCards, NewDeck;
    if k == 0 {
      StartDeck(rnd);
    } else {
      SwappedPermutes(rnd, k - 1);
      SwappedNext(rnd, k - 1);
      SwapCardsIs(Swapped(rnd, k - 1), rnd(2 * (k - 1)), rnd(2 * (k - 1) + 1));
    }
  }

  lemma SwapCardsIs(deck: seq<int>, j: nat, k: nat)
    requires |deck| == 52
    ensures multiset(SwapCards(deck, j, k)) == multiset(deck)
    ensures j < 52 && k < 52 ==> SwapCards(deck, j, k) == Shuffle.Swap(deck, j, k)
  {
    Shuffle.SwapPermutes(deck, j % 52, k % 52);
  }

  lemma SwappedNext(rnd: nat -> nat, i: nat)
    ensures Swapped(rnd, i + 1) == SwapCards(Swapped(rnd, i), rnd(2 * i), rnd(2 * i + 1))
  {
  }

  function Second(js: seq<nat>, i: nat): nat {
    if i < |js| then js[i] else i
  }

  /** Results of rand() that make swap i exchange places i and js[i], or i with itself. */
  function Directed(js: seq<nat>): nat -> nat {
    (r: nat) => if r % 2 == 0 then r / 2 else Second(js, r / 2)
  }

  lemma DirectedAt(js: seq<nat>, i: nat)
    ensures Directed(js)(2 * i) == i && Directed(js)(2 * i + 1) == Second(js, i)
  {
  }

  lemma {:induction false} SwappedFollows(js: seq<nat>, k: nat)
    requires Shuffle.Choices(52, js) && k <= |js|
    ensures Shuffle.Run(Swapped(Directed(js), k), js, k) == Shuffle.Run(NewDeck(), js, 0)
  {
    hide Shuffle.Swap, Shuffle.Run, Swapped, Directed, NewDeck, SwapCards;
    if k == 0 {
      StartDeck(Directed(js));
    } else {
      SwappedFollows(js, k - 1);
      SwappedNext(Directed(js), k - 1);
      DirectedAt(js, k - 1);
      SwapCardsIs(Swapped(Directed(js), k - 1), k - 1, js[k - 1]);
      Shuffle.RunNext(Swapped(Directed(js), k - 1), js, k - 1);
    }
  }

  /** Every order of the deck is the outcome of some results of rand(). */
  lemma EveryDeckReached(target: seq<int>) returns (rnd: nat -> nat)
    requires multiset(target) == multiset(NewDeck())
    ensures Swapped(rnd, 52) == target
  {
    hide Swapped, NewDeck;
    Shuffle.SameSize(NewDeck(), target);
    var js := Shuffle.RunSurjective(NewDeck(), target, 0, []);
    rnd := Directed(js);
    SwappedFollows(js, 51);
    DirectedAt(js, 51);
    hide Directed;
    SwappedNext(rnd, 51);
    var d := Swapped(rnd, 51);
    assert d[51 := d[51]][51 := d[51]] == d;
  }

  /** The parent's deck after its random swaps: the cards 0..51 in some order. */
  method ShuffledDeck(rnd: nat -> nat) returns (deck: array<int>)
    ensures fresh(deck) && deck[..] == Swapped(rnd, 52)
    ensures multiset(deck[..]) == multiset(NewDeck())
  {
    hide Swapped;
    deck := new int[DECK_SIZE](i => i);
    assert deck[..] == NewDeck() == Swapped(rnd, 0) by { StartDeck(rnd); }
    hide NewDeck;
    for i := 0 to DECK_SIZE
      invariant deck[..] == Swapped(rnd, i)
    {
      SwappedNext(rnd, i);
      var j, k := rnd(2 * i) % DECK_SIZE, rnd(2 * i + 1) % DECK_SIZE;
      var tmp := deck[j];
      deck[j] := deck[k];
      deck[k] := tmp;
    }
    SwappedPermutes(rnd, 52);
  }

  lemma StartDeck(rnd: nat -> nat)
    ensures Swapped(rnd, 0) == NewDeck()
  {
  }

  /** What the parent writes to player i: places i*m .. (i+1)*m - 1 of the deck. */
  function DealtTo(deck: seq<int>, m: nat, i: nat): (hand: seq<int>)
    requires 0 <= i * m <= (i + 1) * m <= |deck|
  {
    deck[i * m..(i + 1) * m]
  }

  ghost predicate Dealt(g: Game, deck: seq<int>, hands: seq<seq<int>>) {
    |hands| == g.n && forall i :: 0 <= i < g.n ==> HandDealt(deck, g.m, i, hands[i])
  }

  ghost predicate HandDealt(deck: seq<int>, m: nat, i: nat, hand: seq<int>) {
    0 <= i * m <= (i + 1) * m <= |deck| && hand == DealtTo(deck, m, i)
  }

  lemma CardPlace(i: nat, j: nat, n: nat, m: nat)
    requires i < n && j < m
    ensures 0 <= i * m && i * m + j < (i + 1) * m <= n * m
  {
    assert (i + 1) * m == i * m + m;
    Multiples(0, i, m);
    Multiples(i + 1, n, m);
  }

  lemma {:induction false} Multiples(a: nat, b: nat, m: nat)
    requires a <= b
    ensures a * m <= b * m
  {
    if a < b {
      Multiples(a, b - 1, m);
      assert b * m == (b - 1) * m + m;
    }
  }

  /** The dealing loops of parent_work; the bytes written to player i are its hand. */
  method Deal(g: Game, deck: array<int>) returns (hands: seq<seq<int>>)
    requires g.n * g.m <= deck.Length
    ensures Dealt(g, deck[..], hands)
  {
    hands := [];
    for i := 0 to g.n
      invariant |hands| == i
      invariant forall k :: 0 <= k < i ==> HandDealt(deck[..], g.m, k, hands[k])
    {
      var written := [];
      assert 0 <= i * g.m <= (i + 1) * g.m <= g.n * g.m by {
        if g.m > 0 { CardPlace(i, 0, g.n, g.m); }
      }
      for j := 0 to g.m
        invariant |written| == j && written == deck[i * g.m..i * g.m + j]
      {
        CardPlace(i, j, g.n, g.m);
        written := written + [deck[i * g.m + j]];
      }
      assert (i + 1) * g.m == i * g.m + g.m;
      hands := hands + [written];
    }
  }

  /** One player's hand, changed in place by child_work's exchange loop. */
  class Player {
    const hand: array<int>

    constructor (cards: seq<int>)
      ensures fresh(hand) && hand[..] == cards
    {
      hand := new int[|cards|](i requires 0 <= i < |cards| => cards[i]);
    }

    /** Writes a card to the right and empties its place. */
    method GiveCard(slot: nat) returns (c: int)
      requires slot < hand.Length
      modifies hand
      ensures c == old(hand[slot]) && hand[..] == old(hand[..])[slot := 0]
    {
      c := hand[slot];
      hand[slot] := 0;
    }

    /** Puts the card read from the left into the place, and looks for a win. */
    method TakeCard(slot: nat, c: int) returns (win: bool)
      requires slot < hand.Length
      modifies hand
      ensures hand[..] == old(hand[..])[slot := c] && (win <==> OneSuit(hand[..]))
    {
      hand[slot] := c;
      win := CheckWin(hand);
    }
  }

  /** At the start the players together hold exactly the first n*m cards of the deck. */
  lemma {:induction false} StartTotal(g: Game, deck: seq<int>, s: State, k: nat, c: int)
    requires Init(g, s) && Dealt(g, deck, s.hands) && k <= g.n
    ensures 0 <= k * g.m <= |deck| && InHands(c, s.hands, s.pc, k) == multiset(deck[..k * g.m])[c]
    ensures InPipe(c, s.pipes, k) == 0
  {
    if k == 0 {
      assert 0 * g.m == 0;
    } else {
      StartTotal(g, deck, s, k - 1, c);
      assert HandDealt(deck, g.m, k - 1, s.hands[k - 1]);
      SplitCount(deck, (k - 1) * g.m, k * g.m, c);
    }
  }

  lemma SplitCount(deck: seq<int>, a: nat, b: nat, c: int)
    requires a <= b <= |deck|
    ensures multiset(deck[..b])[c] == multiset(deck[..a])[c] + multiset(deck[a..b])[c]
  {
    assert deck[..b] == deck[..a] + deck[a..b];
  }

  /** No card is ever duplicated: on every run of a game dealt from a shuffled deck, each of
      the 52 cards is in at most one place. */
  lemma NoCardTwice(g: Game, deck: seq<int>, run: seq<State>, s: State, c: int)
    requires ValidGame(g) && IsRun(g, run) && s == run[|run| - 1] && Dealt(g, deck, run[0].hands)
    requires multiset(deck) == multiset(NewDeck())
    ensures Shape(g, s) && Total(g, s, c) <= if 0 <= c < 52 then 1 else 0
  {
    RunInv(g, run);
    StartTotal(g, deck, run[0], g.n, c);
    SplitCount(deck, g.n * g.m, |deck|, c);
    assert deck[..|deck|] == deck;
    EachCardOnce(DECK_SIZE, c);
  }

  lemma {:induction false} EachCardOnce(n: nat, c: int)
    ensures multiset(seq(n, i => i))[c] == if 0 <= c < n then 1 else 0
  {
    if n > 0 {
      EachCardOnce(n - 1, c);
      assert seq(n, i => i) == seq(n - 1, i => i) + [n - 1];
    }
  }
}

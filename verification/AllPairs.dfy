/** Two teams of n players; every player exchanges its record with every opponent over its own
    pair of pipes, opponent by opponent: first write, then block in read. */
module AllPairs {

  predicate InRange(n: nat, a: int, b: int, c: int) {
    0 <= a < 2 && 0 <= b < n && 0 <= c < n
  }

  /** The pipe that player j of team g uses for opponent k. */
  type Wires = (int, int, int) -> int

  /** Every ordered pair of opponents has its own pipe: what player (1-g, k) writes for
      opponent j is what player (g, j) reads from opponent k, and no other end is that pipe. */
  ghost predicate WellWired(n: nat, rd: Wires, wr: Wires) {
    && (forall g, j, k :: InRange(n, g, j, k) ==> wr(1 - g, k, j) == rd(g, j, k))
    && (forall g, j, k, g', j', k' ::
          InRange(n, g, j, k) && InRange(n, g', j', k') && rd(g, j, k) == rd(g', j', k')
          ==> g == g' && j == j' && k == k')
  }

  /** The triple (a, b, c) comes before (i, j, k) in the order of create_children's loops. */
  predicate Before(a: int, b: int, c: int, i: int, j: int, k: int) {
    a < i || (a == i && (b < j || (b == j && c < k)))
  }

  /** The entries made before iteration (i, j, k) are below next, and crosswise equal. */
  ghost predicate Crosswise(n: nat, r: array3<int>, w: array3<int>, next: int, i: int, j: int, k: int)
    requires r.Length0 == w.Length0 == 2 && r.Length1 == w.Length1 == r.Length2 == w.Length2 == n
    reads r, w
  {
    forall a, b, c :: InRange(n, a, b, c) && Before(a, b, c, i, j, k) ==>
      0 <= r[a, b, c] < next && w[1 - a, c, b] == r[a, b, c]
  }

  /** ... and all different. */
  ghost predicate AllDifferent(n: nat, r: array3<int>, i: int, j: int, k: int)
    requires r.Length0 == 2 && r.Length1 == r.Length2 == n
    reads r
  {
    forall a, b, c, a', b', c' ::
      InRange(n, a, b, c) && Before(a, b, c, i, j, k) &&
      InRange(n, a', b', c') && Before(a', b', c', i, j, k) && r[a, b, c] == r[a', b', c']
      ==> a == a' && b == b' && c == c'
  }

  ghost predicate Wired(n: nat, r: array3<int>, w: array3<int>, next: int, i: int, j: int, k: int)
    requires r.Length0 == w.Length0 == 2 && r.Length1 == w.Length1 == r.Length2 == w.Length2 == n
    reads r, w
  {
    Crosswise(n, r, w, next, i, j, k) && AllDifferent(n, r, i, j, k)
  }

  /** The innermost iteration: pipe(2) hands out a pipe not used before, and its two ends go
      to the two players that it connects. */
  method AddPipe(n: nat, r: array3<int>, w: array3<int>, pipe: int, i: nat, j: nat, k: nat)
    requires r.Length0 == w.Length0 == 2 && r.Length1 == w.Length1 == r.Length2 == w.Length2 == n && r != w
    requires i < 2 && j < n && k < n && pipe >= 0 && Wired(n, r, w, pipe, i, j, k)
    modifies r, w
    ensures Wired(n, r, w, pipe + 1, i, j, k + 1)
  {
    r[i, j, k] := pipe;
    w[1 - i, k, j] := pipe;
    assert w[1 - i, k, j] == r[i, j, k] == pipe;
    forall a, b, c | InRange(n, a, b, c) && Before(a, b, c, i, j, k + 1)
      ensures w[1 - a, c, b] == r[a, b, c]
      ensures (a == i && b == j && c == k) || (Before(a, b, c, i, j, k) && 0 <= r[a, b, c] == old(r[a, b, c]) < pipe)
    {
      assert (a == i && b == j && c == k) || Before(a, b, c, i, j, k);
    }
  }

  lemma EndOfRow(n: nat, r: array3<int>, w: array3<int>, next: int, i: nat, j: nat)
    requires r.Length0 == w.Length0 == 2 && r.Length1 == w.Length1 == r.Length2 == w.Length2 == n
    ensures Wired(n, r, w, next, i, j, n) ==> Wired(n, r, w, next, i, j + 1, 0)
    ensures Wired(n, r, w, next, i, n, 0) ==> Wired(n, r, w, next, i + 1, 0, 0)
  {
  }

  /** Two wirings given as tables, as functions. */
  ghost predicate SameWires(n: nat, r: array3<int>, w: array3<int>, rd: Wires, wr: Wires)
    requires r.Length0 == w.Length0 == 2 && r.Length1 == w.Length1 == r.Length2 == w.Length2 == n
    reads r, w
  {
    forall a, b, c :: InRange(n, a, b, c) ==> rd(a, b, c) == r[a, b, c] && wr(a, b, c) == w[a, b, c]
  }

  lemma WiresOf(n: nat, r: array3<int>, w: array3<int>) returns (rd: Wires, wr: Wires)
    requires r.Length0 == w.Length0 == 2 && r.Length1 == w.Length1 == r.Length2 == w.Length2 == n
    ensures SameWires(n, r, w, rd, wr)
  {
    var rs := imap a: int, b: int, c: int | InRange(n, a, b, c) :: (a, b, c) := r[a, b, c];
    var ws := imap a: int, b: int, c: int | InRange(n, a, b, c) :: (a, b, c) := w[a, b, c];
    rd := (a, b, c) => if (a, b, c) in rs then rs[(a, b, c)] else 0;
    wr := (a, b, c) => if (a, b, c) in ws then ws[(a, b, c)] else 0;
  }

  lemma AllWired(n: nat, r: array3<int>, w: array3<int>, next: int, rd: Wires, wr: Wires)
    requires r.Length0 == w.Length0 == 2 && r.Length1 == w.Length1 == r.Length2 == w.Length2 == n
    requires Wired(n, r, w, next, 2, 0, 0) && SameWires(n, r, w, rd, wr)
    ensures WellWired(n, rd, wr)
  {
    assert forall a, b, c :: InRange(n, a, b, c) ==> Before(a, b, c, 2, 0, 0);
    assert forall a, b, c :: InRange(n, a, b, c) ==> InRange(n, 1 - a, c, b);
  }

  method PipeRow(n: nat, r: array3<int>, w: array3<int>, pipe: int, i: nat, j: nat) returns (next: int)
    requires r.Length0 == w.Length0 == 2 && r.Length1 == w.Length1 == r.Length2 == w.Length2 == n && r != w
    requires i < 2 && j < n && pipe >= 0 && Wired(n, r, w, pipe, i, j, 0)
    modifies r, w
    ensures next >= 0 && Wired(n, r, w, next, i, j + 1, 0)
  {
    next := pipe;
    for k := 0 to n
      invariant next >= 0 && Wired(n, r, w, next, i, j, k)
    {
      AddPipe(n, r, w, next, i, j, k);
      next := next + 1;
    }
    EndOfRow(n, r, w, next, i, j);
  }

  /** The wiring loops of create_children. */
  method CreatePipes(n: nat) returns (r: array3<int>, w: array3<int>, ghost rd: Wires, ghost wr: Wires)
    ensures r.Length0 == w.Length0 == 2 && r.Length1 == w.Length1 == r.Length2 == w.Length2 == n
    ensures SameWires(n, r, w, rd, wr) && WellWired(n, rd, wr)
  {
    r := new int[2, n, n];
    w := new int[2, n, n];
    var next := 0;
    assert Wired(n, r, w, 0, 0, 0, 0);
    hide Wired;
    for i := 0 to 2
      invariant next >= 0 && Wired(n, r, w, next, i, 0, 0)
    {
      for j := 0 to n
        invariant next >= 0 && Wired(n, r, w, next, i, j, 0)
      {
        next := PipeRow(n, r, w, next, i, j);
      }
      EndOfRow(n, r, w, next, i, 0);
    }
    rd, wr := WiresOf(n, r, w);
    AllWired(n, r, w, next, rd, wr);
  }

  // ---------------------------------------------------------------- the protocol

  /** A player's record; it is sent and received whole. */
  datatype Record = Record(name: string, hp: int, dmg: int)

  /** n players a side, their records, the wiring, and how many records a pipe can hold. */
  datatype Match = Match(n: nat, players: seq<seq<Record>>, rd: Wires, wr: Wires, room: nat)

  ghost predicate ValidMatch(m: Match) {
    && |m.players| == 2 && |m.players[0]| == m.n && |m.players[1]| == m.n
    && WellWired(m.n, m.rd, m.wr) && m.room >= 1
  }

  /** Where a player is: in which round, and whether it has written in that round. */
  datatype Pc = Pc(round: nat, wrote: bool)

  datatype State = State(pc: seq<seq<Pc>>, got: seq<seq<seq<Record>>>, pipes: map<int, seq<Record>>)

  datatype Step = Write(g: nat, j: nat) | Read(g: nat, j: nat)

  ghost predicate Shape(m: Match, s: State) {
    && |s.pc| == |s.got| == 2
    && (forall g :: 0 <= g < 2 ==> |s.pc[g]| == |s.got[g]| == m.n)
    && (forall g, j, k :: InRange(m.n, g, j, k) ==> m.rd(g, j, k) in s.pipes)
    && (forall g, j, k :: InRange(m.n, g, j, k) ==> m.wr(g, j, k) in s.pipes)
  }

  ghost predicate Init(m: Match, s: State) {
    && Shape(m, s)
    && (forall g, j :: 0 <= g < 2 && 0 <= j < m.n ==> s.pc[g][j] == Pc(0, false) && s.got[g][j] == [])
    && (forall id :: id in s.pipes ==> s.pipes[id] == [])
  }

  ghost predicate Enabled(m: Match, s: State, e: Step) {
    && Shape(m, s) && e.g < 2 && e.j < m.n && |m.players| == 2 && |m.players[e.g]| == m.n
    && var p := s.pc[e.g][e.j];
       && p.round < m.n
       && match e
          case Write(g, j) => !p.wrote && |s.pipes[m.wr(g, j, p.round)]| < m.room
          case Read(g, j) => p.wrote && s.pipes[m.rd(g, j, p.round)] != []
  }

  ghost function Apply(m: Match, s: State, e: Step): State
    requires Enabled(m, s, e)
  {
    var p := s.pc[e.g][e.j];
    match e
    case Write(g, j) =>
      var id := m.wr(g, j, p.round);
      s.(pc := s.pc[g := s.pc[g][j := Pc(p.round, true)]],
         pipes := s.pipes[id := s.pipes[id] + [m.players[g][j]]])
    case Read(g, j) =>
      var id := m.rd(g, j, p.round);
      s.(pc := s.pc[g := s.pc[g][j := Pc(p.round + 1, false)]],
         got := s.got[g := s.got[g][j := s.got[g][j] + [s.pipes[id][0]]]],
         pipes := s.pipes[id := s.pipes[id][1..]])
  }

  ghost predicate Next(m: Match, s: State, t: State) {
    exists e :: Enabled(m, s, e) && t == Apply(m, s, e)
  }

  ghost predicate IsRun(m: Match, run: seq<State>) {
    |run| > 0 && Init(m, run[0]) && forall i :: 0 < i < |run| ==> Next(m, run[i - 1], run[i])
  }

  ghost predicate Stuck(m: Match, s: State) {
    forall e :: !Enabled(m, s, e)
  }

  // ---------------------------------------------------------------- invariant

  /** A player at p has done its write of round k. */
  predicate Written(p: Pc, k: nat) {
    p.round > k || (p.round == k && p.wrote)
  }

  /** What the pipe from player (1-g, k) to player (g, j) must contain. */
  ghost function Content(m: Match, s: State, g: nat, j: nat, k: nat): seq<Record>
    requires Shape(m, s) && ValidMatch(m) && g < 2 && j < m.n && k < m.n
  {
    if s.pc[g][j].round > k || !Written(s.pc[1 - g][k], j) then [] else [m.players[1 - g][k]]
  }

  ghost predicate PairOk(m: Match, s: State, g: nat, j: nat, k: nat)
    requires Shape(m, s) && ValidMatch(m) && g < 2 && j < m.n && k < m.n
  {
    && s.pipes[m.rd(g, j, k)] == Content(m, s, g, j, k)
    && (s.pc[g][j].round > k ==> Written(s.pc[1 - g][k], j))
  }

  ghost predicate PlayerOk(m: Match, s: State, g: nat, j: nat)
    requires Shape(m, s) && ValidMatch(m) && g < 2 && j < m.n
  {
    && s.pc[g][j].round <= m.n && (s.pc[g][j].wrote ==> s.pc[g][j].round < m.n)
    && s.got[g][j] == m.players[1 - g][..s.pc[g][j].round]
  }

  ghost predicate Inv(m: Match, s: State) {
    && ValidMatch(m) && Shape(m, s)
    && (forall g, j, k :: InRange(m.n, g, j, k) ==> PairOk(m, s, g, j, k))
    && (forall g: nat, j: nat :: g < 2 && j < m.n ==> PlayerOk(m, s, g, j))
  }

  lemma WriteKeepsPair(m: Match, s: State, e: Step, g: nat, j: nat, k: nat)
    requires Inv(m, s) && Enabled(m, s, e) && e.Write? && g < 2 && j < m.n && k < m.n
    ensures PairOk(m, Apply(m, s, e), g, j, k)
  {
    var round := s.pc[e.g][e.j].round;
    assert PairOk(m, s, g, j, k);
    assert PairOk(m, s, 1 - e.g, round, e.j);
    assert m.wr(e.g, e.j, round) == m.rd(1 - e.g, round, e.j);
  }

  lemma ReadKeepsPair(m: Match, s: State, e: Step, g: nat, j: nat, k: nat)
    requires Inv(m, s) && Enabled(m, s, e) && e.Read? && g < 2 && j < m.n && k < m.n
    ensures PairOk(m, Apply(m, s, e), g, j, k)
  {
    var round := s.pc[e.g][e.j].round;
    assert PairOk(m, s, g, j, k);
    assert PairOk(m, s, e.g, e.j, round);
  }

  lemma StepKeepsPlayer(m: Match, s: State, e: Step, g: nat, j: nat)
    requires Inv(m, s) && Enabled(m, s, e) && g < 2 && j < m.n
    ensures PlayerOk(m, Apply(m, s, e), g, j)
  {
    assert PlayerOk(m, s, g, j);
    if e.Read? {
      assert PairOk(m, s, e.g, e.j, s.pc[e.g][e.j].round);
    }
  }

  lemma StepInv(m: Match, s: State, e: Step)
    requires Inv(m, s) && Enabled(m, s, e)
    ensures Inv(m, Apply(m, s, e))
  {
    var t := Apply(m, s, e);
    forall g, j, k | InRange(m.n, g, j, k)
      ensures PairOk(m, t, g, j, k)
    {
      if e.Write? { WriteKeepsPair(m, s, e, g, j, k); } else { ReadKeepsPair(m, s, e, g, j, k); }
    }
    forall g: nat, j: nat | g < 2 && j < m.n
      ensures PlayerOk(m, t, g, j)
    {
      StepKeepsPlayer(m, s, e, g, j);
    }
  }

  // ---------------------------------------------------------------- progress

  /** If player (g, j) is unfinished, some player can step: a player blocked in round k waits
      for opponent k, which is then stuck in a round below j, so j + k gets smaller. */
  lemma Unblocked(m: Match, s: State, g: nat, j: nat) returns (e: Step)
    requires Inv(m, s) && g < 2 && j < m.n && s.pc[g][j].round < m.n
    ensures Enabled(m, s, e)
    decreases j + s.pc[g][j].round, s.pc[g][j].wrote
  {
    var k := s.pc[g][j].round;
    assert PairOk(m, s, g, j, k) && PairOk(m, s, 1 - g, k, j);
    assert m.wr(g, j, k) == m.rd(1 - g, k, j);
    if !s.pc[g][j].wrote {
      e := Write(g, j);
    } else if s.pipes[m.rd(g, j, k)] != [] {
      e := Read(g, j);
    } else {
      e := Unblocked(m, s, 1 - g, k);
    }
  }

  /** Operations a team has performed. */
  function Ops(team: seq<Pc>): nat {
    if team == [] then 0
    else Ops(team[..|team| - 1]) + PcOps(team[|team| - 1])
  }

  function PcOps(p: Pc): nat {
    2 * p.round + if p.wrote then 1 else 0
  }

  lemma {:induction false} OpsUpdate(team: seq<Pc>, j: nat, p: Pc)
    requires j < |team|
    ensures Ops(team[j := p]) == Ops(team) - PcOps(team[j]) + PcOps(p)
  {
    var n := |team| - 1;
    if j == n {
      assert team[j := p][..n] == team[..n];
    } else {
      OpsUpdate(team[..n], j, p);
      assert team[j := p][..n] == team[..n][j := p];
    }
  }

  lemma {:induction false} OpsBound(team: seq<Pc>, lo: nat, hi: nat)
    requires forall j :: 0 <= j < |team| ==> lo <= PcOps(team[j]) <= hi
    ensures |team| * lo <= Ops(team) <= |team| * hi
  {
    if team != [] {
      var k := |team| - 1;
      hide PcOps;
      OpsBound(team[..k], lo, hi);
      OneMore(k, lo);
      OneMore(k, hi);
    }
  }

  lemma OneMore(k: nat, x: nat)
    ensures (k + 1) * x == k * x + x
  {
  }

  ghost function Done(s: State): nat
    requires |s.pc| == 2
  {
    Ops(s.pc[0]) + Ops(s.pc[1])
  }

  lemma StepDone(m: Match, s: State, e: Step)
    requires Enabled(m, s, e)
    ensures Done(Apply(m, s, e)) == Done(s) + 1
  {
    var p := s.pc[e.g][e.j];
    OpsUpdate(s.pc[e.g], e.j, if e.Write? then Pc(p.round, true) else Pc(p.round + 1, false));
  }

  lemma {:induction false} RunInv(m: Match, run: seq<State>)
    requires ValidMatch(m) && IsRun(m, run)
    ensures Inv(m, run[|run| - 1]) && Done(run[|run| - 1]) == |run| - 1
    decreases |run|
  {
    var n := |run| - 1;
    if n == 0 {
      OpsBound(run[0].pc[0], 0, 0);
      OpsBound(run[0].pc[1], 0, 0);
    } else {
      RunInv(m, run[..n]);
      hide Inv, Done, Apply, Enabled, ValidMatch;
      assert Next(m, run[n - 1], run[n]);
      var e :| Enabled(m, run[n - 1], e) && run[n] == Apply(m, run[n - 1], e);
      StepInv(m, run[n - 1], e);
      StepDone(m, run[n - 1], e);
    }
  }

  /** The exchange cannot deadlock or go on for ever: a run can be extended as long as some
      player is unfinished, it has at most 4 n^2 steps, and when nobody can step every player
      holds every opponent's record exactly once, in index order, and every pipe is empty. */
  lemma ExchangeCompletes(m: Match, run: seq<State>, s: State)
    requires ValidMatch(m) && IsRun(m, run) && s == run[|run| - 1]
    ensures |run| - 1 <= 4 * m.n * m.n
    ensures |s.pc| == 2 && |s.got| == 2 && |s.got[0]| == |s.got[1]| == m.n
    ensures forall g, j :: 0 <= g < 2 && 0 <= j < m.n ==> s.got[g][j] <= m.players[1 - g]
    ensures Stuck(m, s) ==>
              && |run| - 1 == 4 * m.n * m.n
              && (forall g, j :: 0 <= g < 2 && 0 <= j < m.n ==> s.got[g][j] == m.players[1 - g])
              && (forall g, j, k :: InRange(m.n, g, j, k) ==>
                    m.rd(g, j, k) in s.pipes && s.pipes[m.rd(g, j, k)] == [])
  {
    RunInv(m, run);
    forall g: nat, j: nat | g < 2 && j < m.n
      ensures PcOps(s.pc[g][j]) <= 2 * m.n && s.got[g][j] <= m.players[1 - g]
      ensures Stuck(m, s) ==> PcOps(s.pc[g][j]) == 2 * m.n && s.got[g][j] == m.players[1 - g]
    {
      assert PlayerOk(m, s, g, j);
      if Stuck(m, s) && s.pc[g][j].round < m.n {
        var e := Unblocked(m, s, g, j);
      }
    }
    var lo := if Stuck(m, s) then 2 * m.n else 0;
    OpsBound(s.pc[0], lo, 2 * m.n);
    OpsBound(s.pc[1], lo, 2 * m.n);
    FourSquares(m.n);
    if Stuck(m, s) {
      forall g, j, k | InRange(m.n, g, j, k)
        ensures s.pipes[m.rd(g, j, k)] == []
      {
        assert PairOk(m, s, g, j, k) && PcOps(s.pc[g][j]) == 2 * m.n;
      }
    }
  }

  lemma FourSquares(n: nat)
    ensures n * (2 * n) + n * (2 * n) == 4 * n * n
  {
  }
}

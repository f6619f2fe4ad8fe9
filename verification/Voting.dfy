/** The voting server: seven elector seats, connections that claim a seat with their first
    byte and then vote, and a tally over three candidates.  Descriptors are reused by later
    connections; votes stay when an elector hangs up. */
module Voting {

  const SEATS: nat := 7
  const N_CANDIDATES: nat := 3

  /** What the event loop sees: a new connection, one byte, or end of file. */
  datatype Event = Accept(fd: int) | Byte(fd: int, c: char) | Hangup(fd: int)

  /** `open` is the set of descriptors registered with epoll. */
  datatype State = State(electors: seq<int>, votes: seq<int>, open: set<int>)

  const START: State := State([-1, -1, -1, -1, -1, -1, -1], [0, 0, 0, 0, 0, 0, 0], {})

  ghost predicate Shape(s: State) {
    |s.electors| == |s.votes| == SEATS
  }

  predicate Enabled(s: State, e: Event) {
    match e
    case Accept(fd) => fd >= 0 && fd !in s.open
    case Byte(fd, _) => fd in s.open
    case Hangup(fd) => fd in s.open
  }

  /** Index of the first x in a, or -1. */
  function Search(a: seq<int>, x: int): (i: int)
    ensures -1 <= i < |a|
    ensures i >= 0 ==> a[i] == x && x !in a[..i]
    ensures i < 0 <==> x !in a
  {
    if a == [] then -1
    else if a[0] == x then 0
    else var i := Search(a[1..], x); if i < 0 then -1 else i + 1
  }

  function Apply(s: State, e: Event): State
    requires |s.electors| == |s.votes| == SEATS
  {
    match e
    case Accept(fd) => s.(open := s.open + {fd})
    case Byte(fd, c) =>
      var who := Search(s.electors, fd);
      if who == -1 then
        if c < '1' || c > '7' then s.(open := s.open - {fd})
        else
          var k := (c - '1') as int;
          if s.electors[k] != -1 then s.(open := s.open - {fd})
          else s.(electors := s.electors[k := fd])
      else if '1' <= c <= '3' then s.(votes := s.votes[who := (c - '0') as int])
      else s
    case Hangup(fd) =>
      var who := Search(s.electors, fd);
      s.(open := s.open - {fd}, electors := if who < 0 then s.electors else s.electors[who := -1])
  }

  /** The state after a history of events. */
  ghost function After(h: seq<Event>): (s: State)
    ensures Shape(s)
    decreases |h|
  {
    if h == [] then START else Apply(After(h[..|h| - 1]), h[|h| - 1])
  }

  /** Every event of the history could happen when it did. */
  ghost predicate Possible(h: seq<Event>) {
    forall t :: 0 <= t < |h| ==> Enabled(After(h[..t]), h[t])
  }

  // ---------------------------------------------------------------- meaning of a history

  function Digit(k: int): char
    requires 0 <= k < SEATS
  {
    '1' + k as char
  }

  /** After h, descriptor fd holds seat k: at some moment t its connection, not seated, asked
      for the seat while it was vacant, and it has not hung up since. */
  ghost predicate Holds(h: seq<Event>, fd: int, k: int)
    decreases |h|
  {
    && 0 <= k < SEATS
    && exists t ::
         && 0 <= t < |h| && h[t] == Byte(fd, Digit(k))
         && (forall j :: !Holds(h[..t], fd, j))
         && (forall f :: !Holds(h[..t], f, k))
         && (forall u :: t < u < |h| ==> h[u] != Hangup(fd))
  }

  ghost predicate NoSeat(h: seq<Event>, fd: int) {
    forall j :: !Holds(h, fd, j)
  }

  ghost predicate NoHolder(h: seq<Event>, k: int) {
    forall f :: !Holds(h, f, k)
  }

  /** Event t of h is a valid vote v of whoever holds seat k at that moment. */
  ghost predicate VoteAt(h: seq<Event>, t: nat, k: int, v: int)
    requires t < |h|
  {
    && h[t].Byte? && 1 <= v <= N_CANDIDATES && h[t].c == '0' + v as char
    && Holds(h[..t], h[t].fd, k)
  }

  /** v is the last valid vote of seat k, or 0 if it never voted. */
  ghost predicate LastVote(h: seq<Event>, k: int, v: int) {
    if v == 0 then forall t, w :: 0 <= t < |h| ==> !VoteAt(h, t, k, w)
    else exists t :: 0 <= t < |h| && VoteAt(h, t, k, v) && forall u, w :: t < u < |h| ==> !VoteAt(h, u, k, w)
  }

  /** A descriptor keeps its seat until it hangs up. */
  lemma HoldsKept(h: seq<Event>, e: Event, fd: int, k: int)
    requires Holds(h, fd, k) && e != Hangup(fd)
    ensures Holds(h + [e], fd, k)
  {
    var h' := h + [e];
    var t :| && 0 <= t < |h| && h[t] == Byte(fd, Digit(k))
             && (forall j :: !Holds(h[..t], fd, j)) && (forall f :: !Holds(h[..t], f, k))
             && (forall u :: t < u < |h| ==> h[u] != Hangup(fd));
    assert h'[t] == h[t] && h'[..t] == h[..t];
  }

  /** An unseated descriptor takes a vacant seat by asking for it. */
  lemma HoldsTaken(h: seq<Event>, e: Event, fd: int, k: int)
    requires 0 <= k < SEATS && e == Byte(fd, Digit(k)) && NoSeat(h, fd) && NoHolder(h, k)
    ensures Holds(h + [e], fd, k)
  {
    var h' := h + [e];
    assert h'[|h|] == e && h'[..|h|] == h;
  }

  /** There is no other way to hold a seat. */
  lemma HoldsOnlyIf(h: seq<Event>, e: Event, fd: int, k: int)
    requires Holds(h + [e], fd, k)
    ensures (Holds(h, fd, k) && e != Hangup(fd)) || (e == Byte(fd, Digit(k)) && NoSeat(h, fd) && NoHolder(h, k))
  {
    var h' := h + [e];
    var t :| && 0 <= t < |h'| && h'[t] == Byte(fd, Digit(k))
             && (forall j :: !Holds(h'[..t], fd, j)) && (forall f :: !Holds(h'[..t], f, k))
             && (forall u :: t < u < |h'| ==> h'[u] != Hangup(fd));
    if t < |h| {
      assert h'[t] == h[t] && h'[..t] == h[..t] && h'[|h|] == e;
      assert forall u :: t < u < |h| ==> h[u] == h'[u];
    } else {
      assert h'[..t] == h;
    }
  }

  /** How one more event changes who holds what. */
  lemma HoldsStep(h: seq<Event>, e: Event, fd: int, k: int)
    requires 0 <= k < SEATS
    ensures Holds(h + [e], fd, k) <==>
              || (Holds(h, fd, k) && e != Hangup(fd))
              || (e == Byte(fd, Digit(k)) && NoSeat(h, fd) && NoHolder(h, k))
  {
    hide Holds, NoSeat, NoHolder;
    if Holds(h, fd, k) && e != Hangup(fd) {
      HoldsKept(h, e, fd, k);
    } else if e == Byte(fd, Digit(k)) && NoSeat(h, fd) && NoHolder(h, k) {
      HoldsTaken(h, e, fd, k);
    } else if Holds(h + [e], fd, k) {
      HoldsOnlyIf(h, e, fd, k);
    }
  }

  lemma VoteStep(h: seq<Event>, e: Event, t: nat, k: int, v: int)
    requires t <= |h|
    ensures t < |h| ==> (VoteAt(h + [e], t, k, v) <==> VoteAt(h, t, k, v))
    ensures t == |h| ==> (VoteAt(h + [e], t, k, v) <==>
              e.Byte? && 1 <= v <= N_CANDIDATES && e.c == '0' + v as char && Holds(h, e.fd, k))
  {
    assert (h + [e])[..t] == if t == |h| then h else h[..t];
  }

  // ---------------------------------------------------------------- the server refines its history

  ghost predicate SeatsMatch(h: seq<Event>, s: State)
    requires Shape(s)
  {
    forall fd, k :: 0 <= k < SEATS ==> (s.electors[k] == fd >= 0 <==> Holds(h, fd, k))
  }

  ghost predicate Inv(h: seq<Event>, s: State) {
    && Shape(s)
    && (forall k :: 0 <= k < SEATS ==> s.electors[k] == -1 || (s.electors[k] >= 0 && s.electors[k] in s.open))
    && (forall j, k :: 0 <= j < k < SEATS && s.electors[j] == s.electors[k] ==> s.electors[j] == -1)
    && (forall fd :: fd in s.open ==> fd >= 0)
    && SeatsMatch(h, s)
    && (forall k :: 0 <= k < SEATS ==> LastVote(h, k, s.votes[k]))
  }

  lemma SeatsStep(h: seq<Event>, s: State, e: Event)
    requires Inv(h, s) && Enabled(s, e)
    ensures SeatsMatch(h + [e], Apply(s, e))
  {
    var t := Apply(s, e);
    forall fd, k | 0 <= k < SEATS
      ensures t.electors[k] == fd >= 0 <==> Holds(h + [e], fd, k)
    {
      HoldsStep(h, e, fd, k);
      assert s.electors[k] == fd >= 0 <==> Holds(h, fd, k);
      if e.Byte? && e.fd == fd {
        Unseated(h, s, fd);
        Vacant(h, s, k);
      }
    }
  }

  lemma Unseated(h: seq<Event>, s: State, fd: int)
    requires Shape(s) && SeatsMatch(h, s) && fd >= 0
    ensures fd !in s.electors <==> NoSeat(h, fd)
  {
    if i :| 0 <= i < SEATS && s.electors[i] == fd {
      assert Holds(h, fd, i);
    } else {
      forall j
        ensures !Holds(h, fd, j)
      {
        assert 0 <= j < SEATS ==> s.electors[j] != fd;
      }
    }
  }

  lemma Vacant(h: seq<Event>, s: State, k: int)
    requires Inv(h, s) && 0 <= k < SEATS
    ensures s.electors[k] == -1 <==> NoHolder(h, k)
  {
    if s.electors[k] != -1 {
      assert Holds(h, s.electors[k], k);
    }
  }

  lemma VotesStep(h: seq<Event>, s: State, e: Event, k: int)
    requires Inv(h, s) && Enabled(s, e) && 0 <= k < SEATS
    ensures LastVote(h + [e], k, Apply(s, e).votes[k])
  {
    var h', v := h + [e], s.votes[k];
    forall t: nat, w | t <= |h|
      ensures t < |h| ==> (VoteAt(h', t, k, w) <==> VoteAt(h, t, k, w))
      ensures t == |h| ==> (VoteAt(h', t, k, w) <==>
                e.Byte? && 1 <= w <= N_CANDIDATES && e.c == '0' + w as char && Holds(h, e.fd, k))
    {
      VoteStep(h, e, t, k, w);
    }
    if e.Byte? && '1' <= e.c <= '3' && Holds(h, e.fd, k) {
      assert s.electors[k] == e.fd;
      assert Search(s.electors, e.fd) == k;
      assert VoteAt(h', |h|, k, (e.c - '0') as int);
    } else {
      assert Apply(s, e).votes[k] == v by {
        if e.Byte? && Search(s.electors, e.fd) == k {
          assert Holds(h, e.fd, k);
        }
      }
      assert forall w :: !VoteAt(h', |h|, k, w);
      if v != 0 {
        var t :| 0 <= t < |h| && VoteAt(h, t, k, v) && forall u, w :: t < u < |h| ==> !VoteAt(h, u, k, w);
        assert VoteAt(h', t, k, v);
      }
    }
  }

  lemma StepInv(h: seq<Event>, s: State, e: Event)
    requires Inv(h, s) && Enabled(s, e)
    ensures Inv(h + [e], Apply(s, e))
  {
    SeatsStep(h, s, e);
    forall k | 0 <= k < SEATS
      ensures LastVote(h + [e], k, Apply(s, e).votes[k])
    {
      VotesStep(h, s, e, k);
    }
    hide SeatsMatch, LastVote;
  }

  /** For every possible history: the seats are exactly those the history assigns, they form
      an injective map into the open descriptors, and each recorded vote is the last valid vote
      of that seat, whoever held it. */
  lemma {:induction false} ServerRefinesHistory(h: seq<Event>)
    requires Possible(h)
    ensures Inv(h, After(h))
    decreases |h|
  {
    if h == [] {
      StartInv();
    } else {
      var n := |h| - 1;
      PossiblePrefix(h, n);
      assert Enabled(After(h[..n]), h[n]);
      AfterOne(h[..n], h[n]);
      hide Inv, Apply, Enabled, Possible, After;
      assert h == h[..n] + [h[n]];
      ServerRefinesHistory(h[..n]);
      StepInv(h[..n], After(h[..n]), h[n]);
    }
  }

  lemma StartInv()
    ensures Inv([], START)
  {
  }

  lemma AfterOne(h: seq<Event>, e: Event)
    ensures After(h + [e]) == Apply(After(h), e)
  {
    assert (h + [e])[..|h|] == h;
  }

  lemma PossiblePrefix(h: seq<Event>, n: nat)
    requires Possible(h) && n <= |h|
    ensures Possible(h[..n])
  {
    forall t | 0 <= t < n
      ensures Enabled(After(h[..n][..t]), h[..n][t])
    {
      assert h[..n][..t] == h[..t];
    }
  }

  // ---------------------------------------------------------------- who is connected

  /** Event e ends the connection of fd after h: it hangs up, or it holds no seat and sends a byte
      that is no seat number, or the number of a seat that somebody holds. */
  ghost predicate Dismisses(h: seq<Event>, e: Event, fd: int) {
    || e == Hangup(fd)
    || (e.Byte? && e.fd == fd && NoSeat(h, fd)
        && (e.c < '1' || e.c > '7' || !NoHolder(h, (e.c - '1') as int)))
  }

  /** fd has been accepted and not dismissed since. */
  ghost predicate Connected(h: seq<Event>, fd: int) {
    exists t :: 0 <= t < |h| && h[t] == Accept(fd) && forall u :: t < u < |h| ==> !Dismisses(h[..u], h[u], fd)
  }

  lemma ConnectedStep(h: seq<Event>, e: Event, fd: int)
    ensures Connected(h + [e], fd) <==> e == Accept(fd) || (Connected(h, fd) && !Dismisses(h, e, fd))
  {
    hide Dismisses;
    var h' := h + [e];
    assert h'[|h|] == e && h'[..|h|] == h;
    assert forall u :: 0 <= u < |h| ==> h'[u] == h[u] && h'[..u] == h[..u];
    if Connected(h', fd) {
      var t :| 0 <= t < |h'| && h'[t] == Accept(fd) && forall u :: t < u < |h'| ==> !Dismisses(h'[..u], h'[u], fd);
      if t < |h| {
        assert h[t] == Accept(fd);
        assert !Dismisses(h'[..|h|], h'[|h|], fd);
        assert forall u :: t < u < |h| ==> !Dismisses(h[..u], h[u], fd) by {
          forall u | t < u < |h|
            ensures !Dismisses(h[..u], h[u], fd)
          {
            assert !Dismisses(h'[..u], h'[u], fd);
          }
        }
      }
    }
    if Connected(h, fd) && !Dismisses(h, e, fd) {
      var t :| 0 <= t < |h| && h[t] == Accept(fd) && forall u :: t < u < |h| ==> !Dismisses(h[..u], h[u], fd);
      assert h'[t] == Accept(fd);
      forall u | t < u < |h'|
        ensures !Dismisses(h'[..u], h'[u], fd)
      {
      }
    }
  }

  /** What an event does to the open descriptors. */
  lemma OpenStep(h: seq<Event>, s: State, e: Event, fd: int)
    requires Inv(h, s) && Enabled(s, e)
    ensures fd in Apply(s, e).open <==> e == Accept(fd) || (fd in s.open && !Dismisses(h, e, fd))
  {
    if e.Byte? && e.fd == fd {
      Unseated(h, s, fd);
      if '1' <= e.c <= '7' {
        Vacant(h, s, (e.c - '1') as int);
      }
    }
    hide Holds, LastVote, NoSeat, NoHolder;
  }

  /** The open descriptors after one more event, from those before. */
  lemma OpenAfterOne(h: seq<Event>, e: Event, fd: int)
    requires Possible(h) && Enabled(After(h), e) && (fd in After(h).open <==> Connected(h, fd))
    ensures fd in After(h + [e]).open <==> Connected(h + [e], fd)
  {
    ServerRefinesHistory(h);
    OpenStep(h, After(h), e, fd);
    ConnectedStep(h, e, fd);
    AfterOne(h, e);
    hide Inv, Apply, Connected, Dismisses, After, Possible, Enabled;
  }

  lemma {:induction false} OpenFor(h: seq<Event>, fd: int)
    requires Possible(h)
    ensures fd in After(h).open <==> Connected(h, fd)
    decreases |h|
  {
    if h != [] {
      var n := |h| - 1;
      PossiblePrefix(h, n);
      assert Enabled(After(h[..n]), h[n]);
      hide Apply, Enabled, Possible, Connected, After;
      OpenFor(h[..n], fd);
      OpenAfterOne(h[..n], h[n], fd);
      assert h == h[..n] + [h[n]];
    }
  }

  /** After every possible history the open descriptors are exactly the accepted connections that
      have neither hung up nor been turned away as a stranger or an impostor. */
  lemma OpenIsConnected(h: seq<Event>)
    requires Possible(h)
    ensures forall fd :: fd in After(h).open <==> Connected(h, fd)
  {
    hide Possible, Connected, After;
    forall fd
      ensures fd in After(h).open <==> Connected(h, fd)
    {
      OpenFor(h, fd);
    }
  }

  // ---------------------------------------------------------------- the tally

  /** Votes for candidate c (1, 2 or 3) among the first n seats. */
  function Score(votes: seq<int>, c: int, n: nat): nat
    requires n <= |votes|
  {
    if n == 0 then 0 else Score(votes, c, n - 1) + if votes[n - 1] == c then 1 else 0
  }

  /** Seats among the first n that have voted. */
  function Voted(votes: seq<int>, n: nat): nat
    requires n <= |votes|
  {
    if n == 0 then 0 else Voted(votes, n - 1) + if votes[n - 1] > 0 then 1 else 0
  }

  ghost predicate ValidVotes(votes: seq<int>) {
    forall k :: 0 <= k < |votes| ==> 0 <= votes[k] <= N_CANDIDATES
  }

  /** The recorded votes of a server are valid, so the tally indexes `score` in range. */
  lemma RecordedVotesValid(h: seq<Event>)
    requires Possible(h)
    ensures ValidVotes(After(h).votes)
  {
    ServerRefinesHistory(h);
    forall k | 0 <= k < SEATS
      ensures 0 <= After(h).votes[k] <= N_CANDIDATES
    {
      assert LastVote(h, k, After(h).votes[k]);
    }
  }

  lemma {:induction false} ScoresSumToVoted(votes: seq<int>, n: nat)
    requires ValidVotes(votes) && n <= |votes|
    ensures Score(votes, 1, n) + Score(votes, 2, n) + Score(votes, 3, n) == Voted(votes, n)
  {
    if n > 0 {
      ScoresSumToVoted(votes, n - 1);
    }
  }

  /** The winner announced: the lowest-numbered candidate of maximal non-zero score, else -1. */
  ghost predicate IsWinner(score: seq<int>, w: int) {
    if forall i :: 0 <= i < |score| ==> score[i] <= 0 then w == -1
    else
      && 1 <= w <= |score| && score[w - 1] > 0
      && (forall i :: 0 <= i < |score| ==> score[i] <= score[w - 1])
      && (forall i :: 0 <= i < w - 1 ==> score[i] < score[w - 1])
  }

  /** The tally of run_tcp and run_udp. */
  method Tally(votes: array<int>) returns (score: array<int>)
    requires votes.Length == SEATS && ValidVotes(votes[..])
    ensures fresh(score) && score.Length == N_CANDIDATES
    ensures forall c :: 0 <= c < N_CANDIDATES ==> score[c] == Score(votes[..], c + 1, SEATS)
    ensures score[0] + score[1] + score[2] == Voted(votes[..], SEATS)
  {
    score := new int[N_CANDIDATES](_ => 0);
    for i := 0 to SEATS
      invariant forall c :: 0 <= c < N_CANDIDATES ==> score[c] == Score(votes[..], c + 1, i)
    {
      assert votes[..][i] == votes[i];
      if votes[i] > 0 {
        score[votes[i] - 1] := score[votes[i] - 1] + 1;
      }
    }
    ScoresSumToVoted(votes[..], SEATS);
  }

  method Winner(score: array<int>) returns (winner: int)
    requires score.Length == N_CANDIDATES
    ensures IsWinner(score[..], winner)
  {
    winner := -1;
    var maxScore := 0;
    for i := 0 to N_CANDIDATES
      invariant forall j :: 0 <= j < i ==> score[j] <= maxScore
      invariant winner == -1 ==> maxScore == 0
      invariant winner != -1 ==> 1 <= winner <= i && score[winner - 1] == maxScore > 0
      invariant winner != -1 ==> forall j :: 0 <= j < winner - 1 ==> score[j] < maxScore
    {
      if score[i] > maxScore {
        maxScore := score[i];
        winner := i + 1;
      }
    }
    assert winner != -1 ==> score[..][winner - 1] > 0;
  }

  // ---------------------------------------------------------------- the outcome of a history

  /** A seat has only one last vote. */
  lemma LastVoteUnique(h: seq<Event>, k: int, v: int, w: int)
    requires LastVote(h, k, v) && LastVote(h, k, w)
    ensures v == w
  {
    hide Holds;
    if v != 0 && w != 0 {
      var t :| 0 <= t < |h| && VoteAt(h, t, k, v) && forall u, x :: t < u < |h| ==> !VoteAt(h, u, k, x);
      var r :| 0 <= r < |h| && VoteAt(h, r, k, w) && forall u, x :: r < u < |h| ==> !VoteAt(h, u, k, x);
      assert t == r;
    }
  }

  lemma LastVoteOnly(h: seq<Event>, k: int, v: int, w: int)
    requires LastVote(h, k, v)
    ensures LastVote(h, k, w) <==> v == w
  {
    if v != w && LastVote(h, k, w) {
      LastVoteUnique(h, k, v, w);
    }
  }

  /** The seats among the first n whose last valid vote in h is c. */
  ghost function Backers(h: seq<Event>, c: int, n: nat): set<int> {
    set k: int | 0 <= k < n && LastVote(h, k, c)
  }

  /** The score of a candidate is the number of its backers. */
  lemma {:induction false} ScoreIsBackers(h: seq<Event>, votes: seq<int>, c: int, n: nat)
    requires n <= |votes| && forall k :: 0 <= k < |votes| ==> LastVote(h, k, votes[k])
    ensures Score(votes, c, n) == |Backers(h, c, n)|
  {
    if n == 0 {
      assert Backers(h, c, 0) == {};
    } else {
      ScoreIsBackers(h, votes, c, n - 1);
      hide LastVote;
      if votes[n - 1] == c {
        assert Backers(h, c, n) == Backers(h, c, n - 1) + {n - 1};
      } else {
        LastVoteOnly(h, n - 1, votes[n - 1], c);
        assert Backers(h, c, n) == Backers(h, c, n - 1);
      }
    }
  }

  ghost function Support(h: seq<Event>, c: int): nat {
    |Backers(h, c, SEATS)|
  }

  /** w is the lowest-numbered of the candidates with the most seats behind them after h, or -1
      if no seat has voted. */
  ghost predicate Elected(h: seq<Event>, w: int) {
    if forall c :: 1 <= c <= N_CANDIDATES ==> Support(h, c) == 0 then w == -1
    else
      && 1 <= w <= N_CANDIDATES && Support(h, w) > 0
      && (forall c :: 1 <= c <= N_CANDIDATES ==> Support(h, c) <= Support(h, w))
      && (forall c :: 1 <= c < w ==> Support(h, c) < Support(h, w))
  }

  /** After every possible history the votes have the backers' counts as scores, so the winner of
      the scores is the candidate elected by the history. */
  lemma WinnerIsElected(h: seq<Event>, score: seq<int>, w: int)
    requires Possible(h) && |score| == N_CANDIDATES && IsWinner(score, w)
    requires forall c :: 0 <= c < N_CANDIDATES ==> score[c] == Score(After(h).votes, c + 1, SEATS)
    ensures Elected(h, w)
  {
    ServerRefinesHistory(h);
    forall c | 1 <= c <= N_CANDIDATES
      ensures Support(h, c) == score[c - 1]
    {
      ScoreIsBackers(h, After(h).votes, c, SEATS);
    }
    hide Support, Score, After, Inv;
    assert forall i :: 0 <= i < |score| ==> score[i] == Support(h, i + 1);
  }

  /** One turn of the announcing loop, with the votes the event loop has recorded so far. */
  method Announce(votes: array<int>, ghost h: seq<Event>) returns (winner: int)
    requires Possible(h) && votes[..] == After(h).votes
    ensures Elected(h, winner)
  {
    RecordedVotesValid(h);
    var score := Tally(votes);
    winner := Winner(score);
    WinnerIsElected(h, score[..], winner);
  }

  // ---------------------------------------------------------------- the event loop's code

  class Server {
    const electors: array<int>
    const votes: array<int>
    var open: set<int>

    ghost predicate Valid()
      reads this, electors, votes
    {
      electors.Length == votes.Length == SEATS && electors != votes
    }

    ghost function Abs(): State
      reads this, electors, votes
    {
      State(electors[..], votes[..], open)
    }

    constructor ()
      ensures Valid() && fresh(electors) && fresh(votes) && Abs() == START
    {
      electors := new int[SEATS](_ => -1);
      votes := new int[SEATS](_ => 0);
      open := {};
    }

    /** search over the elector table. */
    method Find(fd: int) returns (who: int)
      requires Valid()
      ensures who == Search(electors[..], fd)
    {
      for i := 0 to electors.Length
        invariant fd !in electors[..i]
      {
        if electors[i] == fd {
          SearchFound(electors[..], fd, i);
          return i;
        }
      }
      assert electors[..electors.Length] == electors[..];
      return -1;
    }

    method OnAccept(fd: int)
      requires Valid() && Enabled(Abs(), Accept(fd))
      modifies this
      ensures Valid() && Abs() == Apply(old(Abs()), Accept(fd))
    {
      open := open + {fd};
    }

    /** One byte read from a client. */
    method OnByte(fd: int, buf: char)
      requires Valid() && Enabled(Abs(), Byte(fd, buf))
      modifies this, electors, votes
      ensures Valid() && Abs() == Apply(old(Abs()), Byte(fd, buf))
    {
      var who := Find(fd);
      if who == -1 {
        if buf < '1' || buf > '7' {
          open := open - {fd};
        } else {
          var k := (buf - '0') as int;
          if electors[k - 1] != -1 {
            open := open - {fd};
          } else {
            electors[k - 1] := fd;
          }
        }
      } else {
        if '1' <= buf && buf <= '3' {
          var vote := (buf - '0') as int;
          votes[who] := vote;
        }
      }
    }

    /** End of file on a client: close, then reset its seat. */
    method OnHangup(fd: int)
      requires Valid() && Enabled(Abs(), Hangup(fd))
      modifies this, electors
      ensures Valid() && Abs() == Apply(old(Abs()), Hangup(fd))
    {
      open := open - {fd};
      for i := 0 to electors.Length
        invariant fd !in electors[..i] && electors[..] == old(electors[..])
        invariant open == old(open) - {fd}
      {
        if electors[i] == fd {
          SearchFound(electors[..], fd, i);
          electors[i] := -1;
          return;
        }
      }
      assert electors[..electors.Length] == electors[..];
    }
  }

  lemma SearchFound(a: seq<int>, x: int, i: nat)
    requires i < |a| && a[i] == x && x !in a[..i]
    ensures Search(a, x) == i
  {
    assert a[i] in a;
  }
}

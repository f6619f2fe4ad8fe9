/** What old copies of datagrams do to the server.  It forgets a session with the last chunk, and
    it claims a slot before it looks at the chunk number: a file can be delivered again, and a
    slot can be taken for a client that has finished long ago. */
module UdpReplay {
  import opened Common
  import opened SopNet
  import opened UdpServer
  import opened UdpClient
  import opened UdpTransfer

  /** A complete session for the file of address a. */
  function Full(files: Files, a: Addr): Session
    requires a in files
  {
    Session(a, Deliveries(files[a], Chunks(files[a])))
  }

  /** The next datagram of a goes to slot p: it is the last free one, or it holds the session of
      a; no other slot does. */
  ghost predicate Reserved(con: seq<Slot>, a: Addr, p: nat) {
    && p < |con| == MAX_ADDR
    && (forall i :: 0 <= i < |con| && i != p ==> !Matches(con[i], a))
    && (forall i :: p < i < |con| ==> !con[i].free)
    && (con[p].free || con[p].addr == a)
  }

  /** Slot p has taken k chunks of a in a session that follows `before`; none if k is 0. */
  ghost predicate At(files: Files, s: State, a: Addr, p: nat, before: seq<Session>, k: nat)
    requires a in files && k <= Chunks(files[a])
  {
    && |s.con| == |s.owner| && Reserved(s.con, a, p)
    && if k == 0 then s.con[p].free && s.sessions == before
       else && s.con[p] == Slot(k == Chunks(files[a]), k, a) && s.owner[p] == |before|
            && s.sessions == before + [Session(a, Deliveries(files[a], k))]
  }

  /** The parts of the state that a turn of the server for slot p does not change. */
  ghost predicate Elsewhere(s: State, t: State, p: nat) {
    && t.up == s.up && t.clients == s.clients && s.down <= t.down && |t.con| == |s.con|
    && forall i :: 0 <= i < |s.con| && i != p ==> t.con[i] == s.con[i]
  }

  lemma FoundAt(con: seq<Slot>, a: Addr, p: nat)
    requires Reserved(con, a, p)
    ensures Found(con, a, p, con[p := if con[p].free then Slot(false, 0, a) else con[p]])
  {
    if !con[p].free {
      assert Matches(con[p], a);
      assert con[p := con[p]] == con;
    }
  }

  lemma ServedAt(con: seq<Slot>, a: Addr, p: nat, d: Datagram, have: nat)
    requires Reserved(con, a, p) && have == if con[p].free then 0 else con[p].chunkNo
    ensures var v := Decide(have, d);
            Served(con, a, d, false, p, v, con[p := Settle(Slot(false, have, a), v, false)])
  {
    hide Num, LastFlag, Decide, Settle;
    FoundAt(con, a, p);
    var mid := con[p := if con[p].free then Slot(false, 0, a) else con[p]];
    var v := Decide(have, d);
    assert mid[p] == Slot(false, have, a);
    assert con[p := Settle(mid[p], v, false)] == mid[p := Settle(mid[p], v, false)];
  }

  lemma ServedDeliver(con: seq<Slot>, a: Addr, p: nat, d: Datagram, have: nat, last: bool)
    requires Reserved(con, a, p) && have == if con[p].free then 0 else con[p].chunkNo
    requires Decide(have, d) == Deliver(last)
    ensures p < |con| && Served(con, a, d, false, p, Deliver(last), con[p := Slot(last, have + 1, a)])
  {
    hide Decide, Served, Num;
    ServedAt(con, a, p, d, have);
  }

  /** The turn of the server in which slot p takes chunk k + 1. */
  ghost predicate ChunkTurn(files: Files, s: State, a: Addr, p: nat, k: nat, e: Step)
    requires a in files && Sendable(files[a]) && k < Chunks(files[a])
  {
    var d, last := Packet(files[a], k + 1), k + 1 == Chunks(files[a]);
    && p < |s.con| && e == Serve(a, d, false, p, Deliver(last), s.con[p := Slot(last, k + 1, a)])
    && Enabled(files, s, e)
  }

  lemma FindChunkTurn(files: Files, s: State, a: Addr, p: nat, before: seq<Session>, k: nat) returns (e: Step)
    requires a in files && Sendable(files[a]) && k < Chunks(files[a]) && At(files, s, a, p, before, k)
    requires (a, Packet(files[a], k + 1)) in s.up
    ensures ChunkTurn(files, s, a, p, k, e)
  {
    var d, last := Packet(files[a], k + 1), k + 1 == Chunks(files[a]);
    assert Decide(k, d) == Deliver(last) by { PacketFields(files[a], k + 1); }
    hide Num, Packet, Payload, LastFlag, Deliveries, Served, Decide, Reserved;
    ServedDeliver(s.con, a, p, d, k, last);
    e := Serve(a, d, false, p, Deliver(last), s.con[p := Slot(last, k + 1, a)]);
  }

  lemma TurnElsewhere(files: Files, s: State, a: Addr, p: nat, k: nat, e: Step)
    requires a in files && Sendable(files[a]) && k < Chunks(files[a]) && ChunkTurn(files, s, a, p, k, e)
    ensures Elsewhere(s, Apply(files, s, e), p) && (a, e.d) in Apply(files, s, e).down
  {
    hide Num, Packet, Payload, Served, OwnerAfter, Logged;
  }

  lemma TurnOwner(files: Files, s: State, a: Addr, p: nat, before: seq<Session>, k: nat)
    requires a in files && k < Chunks(files[a]) && At(files, s, a, p, before, k)
    ensures p < |s.con| == |s.owner|
    ensures var (owner, sessions) := OwnerAfter(s, a, p);
            |owner| == |s.con| && owner[p] == |before| && sessions == before + [Session(a, Deliveries(files[a], k))]
  {
    assert p < |s.con|;
    assert Deliveries(files[a], 0) == [];
    hide Reserved, Deliveries;
  }

  lemma TurnSessions(files: Files, s: State, a: Addr, p: nat, before: seq<Session>, k: nat, e: Step)
    requires a in files && Sendable(files[a]) && k < Chunks(files[a]) && At(files, s, a, p, before, k)
    requires ChunkTurn(files, s, a, p, k, e)
    ensures var t := Apply(files, s, e);
            && |t.con| == |t.owner| && p < |t.con| && t.con[p] == Slot(k + 1 == Chunks(files[a]), k + 1, a)
            && t.owner[p] == |before| && t.sessions == before + [Session(a, Deliveries(files[a], k + 1))]
  {
    TurnOwner(files, s, a, p, before, k);
    NextDelivery(files[a], k);
    NumAndPayload(files[a], k + 1);
    hide Num, Packet, Payload, Served, Deliveries, Part, Padded, OwnerAfter, At, Logged;
    LogDelivery(before, Session(a, Deliveries(files[a], k)), e.d, e.v);
  }

  lemma NumAndPayload(file: seq<byte>, k: nat)
    requires Sendable(file) && 1 <= k <= Chunks(file)
    ensures Num(Packet(file, k)) == k && Payload(Packet(file, k)) == Padded(Part(file, k))
  {
    PacketFields(file, k);
  }

  lemma LogDelivery(before: seq<Session>, x: Session, d: Datagram, v: Verdict)
    requires v.Deliver?
    ensures Logged(before + [x], |before|, d, v)
            == before + [x.(log := x.log + [Delivery(Num(d), v.last, Payload(d))])]
  {
    hide Num, Payload;
  }

  lemma NextDelivery(file: seq<byte>, k: nat)
    requires k < Chunks(file)
    ensures Deliveries(file, k + 1)
            == Deliveries(file, k) + [Delivery(k + 1, k + 1 == Chunks(file), Padded(Part(file, k + 1)))]
  {
  }

  /** With chunk k + 1 on the network a session that stands at k can take it. */
  lemma ServeChunk(files: Files, s: State, a: Addr, p: nat, before: seq<Session>, k: nat) returns (t: State)
    requires a in files && Sendable(files[a]) && k < Chunks(files[a]) && At(files, s, a, p, before, k)
    requires (a, Packet(files[a], k + 1)) in s.up
    ensures Next(files, s, t) && Elsewhere(s, t, p) && At(files, t, a, p, before, k + 1)
    ensures (a, Packet(files[a], k + 1)) in t.down
  {
    hide Num, Packet, Payload, Deliveries, Reserved, Enabled, Apply, Elsewhere;
    var e := FindChunkTurn(files, s, a, p, before, k);
    t := Apply(files, s, e);
    TurnElsewhere(files, s, a, p, k, e);
    TurnSessions(files, s, a, p, before, k, e);
    ReservedStays(s.con, a, p, Slot(k + 1 == Chunks(files[a]), k + 1, a));
    assert t.con == e.con' by { TurnTable(files, s, e); }
  }

  lemma TurnTable(files: Files, s: State, e: Step)
    requires e.Serve? && Enabled(files, s, e) && e.pos >= 0
    ensures Apply(files, s, e).con == e.con'
  {
    hide Served;
  }

  lemma ReservedStays(con: seq<Slot>, a: Addr, p: nat, slot: Slot)
    requires Reserved(con, a, p) && slot.addr == a
    ensures Reserved(con[p := slot], a, p)
  {
  }

  /** A repeated chunk is acknowledged again: whatever was lost before, the client can still get
      its answer, and the session stays as it is. */
  lemma RepeatAcknowledged(files: Files, s: State, a: Addr, p: nat, before: seq<Session>, have: nat, k: nat)
      returns (t: State)
    requires a in files && Sendable(files[a]) && 1 <= k <= have < Chunks(files[a])
    requires At(files, s, a, p, before, have) && (a, Packet(files[a], k)) in s.up
    ensures Next(files, s, t) && (a, Packet(files[a], k)) in t.down
    ensures t.con == s.con && t.owner == s.owner && t.sessions == s.sessions && t.clients == s.clients && t.up == s.up
  {
    var d := Packet(files[a], k);
    assert Num(d) == k by { PacketFields(files[a], k); }
    assert Decide(have, d) == Repeat;
    ServedAt(s.con, a, p, d, have);
    hide Num, Packet, Served, Decide, Deliveries;
    assert s.con[p := Slot(false, have, a)] == s.con;
    var e := Serve(a, d, false, p, Repeat, s.con);
    assert Enabled(files, s, e);
    t := Apply(files, s, e);
  }

  lemma Extend(files: Files, run: seq<State>, t: State) returns (longer: seq<State>)
    requires IsRun(files, run) && Next(files, run[|run| - 1], t)
    ensures IsRun(files, longer) && longer[|longer| - 1] == t
  {
    hide Next, Init;
    longer := run + [t];
  }

  ghost predicate PacketsUp(files: Files, s: State, a: Addr, k: nat)
    requires a in files && Sendable(files[a]) && k <= Chunks(files[a])
  {
    forall j :: 1 <= j <= k ==> (a, Packet(files[a], j)) in s.up
  }

  /** The network repeats the datagrams of a from chunk k + 1 on. */
  lemma {:induction false} Replay(files: Files, run: seq<State>, a: Addr, p: nat, before: seq<Session>, k: nat)
      returns (longer: seq<State>)
    requires IsRun(files, run) && a in files && Sendable(files[a]) && k <= Chunks(files[a])
    requires At(files, run[|run| - 1], a, p, before, k) && PacketsUp(files, run[|run| - 1], a, Chunks(files[a]))
    ensures IsRun(files, longer) && Elsewhere(run[|run| - 1], longer[|longer| - 1], p)
    ensures At(files, longer[|longer| - 1], a, p, before, Chunks(files[a]))
    decreases Chunks(files[a]) - k
  {
    hide At, Next, Init, Packet;
    longer := run;
    if k < Chunks(files[a]) {
      var t := ServeChunk(files, run[|run| - 1], a, p, before, k);
      longer := Extend(files, run, t);
      longer := Replay(files, longer, a, p, before, k + 1);
    }
  }

  /** A client about to send chunk k + 1, or finished after the last. */
  ghost predicate ClientAt(files: Files, s: State, a: Addr, k: nat)
    requires a in files && k <= Chunks(files[a])
  {
    a in s.clients && if k < Chunks(files[a]) then s.clients[a].pc.Sending? && s.clients[a].chunk == k + 1
                      else s.clients[a].pc.Finished?
  }

  /** What one client's round leaves alone: other slots and other clients. */
  ghost predicate Others(s: State, t: State, a: Addr, p: nat) {
    && s.up <= t.up && t.clients.Keys == s.clients.Keys && |t.con| == |s.con|
    && (forall b :: b in s.clients && b != a ==> t.clients[b] == s.clients[b])
    && forall i :: 0 <= i < |s.con| && i != p ==> t.con[i] == s.con[i]
  }

  lemma SendChunk(files: Files, s: State, a: Addr, p: nat, before: seq<Session>, k: nat) returns (t: State)
    requires a in files && Sendable(files[a]) && k < Chunks(files[a]) && At(files, s, a, p, before, k)
    requires ClientAt(files, s, a, k)
    ensures Next(files, s, t) && Others(s, t, a, p) && At(files, t, a, p, before, k)
    ensures (a, Packet(files[a], k + 1)) in t.up
    ensures a in t.clients && t.clients[a].pc.Waiting? && t.clients[a].chunk == k + 1
  {
    hide Num, Packet, Deliveries, Reserved;
    assert Enabled(files, s, Send(a));
    t := Apply(files, s, Send(a));
  }

  lemma AcceptReply(files: Files, s: State, a: Addr, p: nat, before: seq<Session>, k: nat) returns (t: State)
    requires a in files && Sendable(files[a]) && 1 <= k <= Chunks(files[a]) && At(files, s, a, p, before, k)
    requires a in s.clients && s.clients[a].pc.Waiting? && s.clients[a].chunk == k
    requires (a, Packet(files[a], k)) in s.down
    ensures Next(files, s, t) && Others(s, t, a, p) && At(files, t, a, p, before, k) && ClientAt(files, t, a, k)
  {
    PacketFields(files[a], k);
    hide Num, Packet, Deliveries, Reserved;
    var e := Wait(a, Some(Packet(files[a], k)));
    assert Enabled(files, s, e);
    t := Apply(files, s, e);
  }

  /** A whole transfer over a network that behaves, chunk by chunk. */
  lemma {:induction false} Transfer(files: Files, run: seq<State>, a: Addr, p: nat, before: seq<Session>, k: nat)
      returns (longer: seq<State>)
    requires IsRun(files, run) && a in files && Sendable(files[a]) && k <= Chunks(files[a])
    requires At(files, run[|run| - 1], a, p, before, k) && ClientAt(files, run[|run| - 1], a, k)
    requires PacketsUp(files, run[|run| - 1], a, k)
    ensures IsRun(files, longer) && Others(run[|run| - 1], longer[|longer| - 1], a, p)
    ensures At(files, longer[|longer| - 1], a, p, before, Chunks(files[a]))
    ensures ClientAt(files, longer[|longer| - 1], a, Chunks(files[a]))
    ensures PacketsUp(files, longer[|longer| - 1], a, Chunks(files[a]))
    decreases Chunks(files[a]) - k
  {
    hide At, Next, Init, Packet, ClientAt;
    longer := run;
    if k < Chunks(files[a]) {
      var sent := SendChunk(files, run[|run| - 1], a, p, before, k);
      longer := Extend(files, longer, sent);
      var served := ServeChunk(files, sent, a, p, before, k);
      longer := Extend(files, longer, served);
      var accepted := AcceptReply(files, served, a, p, before, k + 1);
      longer := Extend(files, longer, accepted);
      longer := Transfer(files, longer, a, p, before, k + 1);
    }
  }

  lemma Start(files: Files) returns (s: State)
    ensures Init(files, s)
  {
    var anyone := Addr(0, 0);
    s := State(seq(MAX_ADDR, _ => Slot(true, 0, anyone)), seq(MAX_ADDR, _ => 0), [], {}, {},
               map a | a in files :: START);
  }

  /** Why "exactly once" holds per session only: no file whatsoever is safe.  For every file and
      every n > 0 there is a run in which its client sends it once and n sessions each deliver
      the whole of it. */
  lemma {:induction false} DeliveredManyTimes(files: Files, a: Addr, n: nat) returns (run: seq<State>)
    requires a in files && Sendable(files[a]) && n > 0
    ensures IsRun(files, run)
    ensures var s := run[|run| - 1];
            && |s.sessions| == n && (forall i :: 0 <= i < n ==> s.sessions[i] == Full(files, a))
            && a in s.clients && s.clients[a].pc.Finished?
            && At(files, s, a, 4, s.sessions, 0) && PacketsUp(files, s, a, Chunks(files[a]))
  {
    if n == 1 {
      var s := Start(files);
      run := [s];
      assert At(files, s, a, 4, [], 0) && ClientAt(files, s, a, 0);
      hide Init, Next, Packet, Deliveries;
      run := Transfer(files, run, a, 4, [], 0);
    } else {
      run := DeliveredManyTimes(files, a, n - 1);
      hide Init, Next, Packet, Deliveries;
      run := Replay(files, run, a, 4, run[|run| - 1].sessions, 0);
    }
  }

  ghost predicate AtMostOnce(sessions: seq<Session>, x: Session) {
    forall i, j :: 0 <= i < j < |sessions| ==> sessions[i] != x || sessions[j] != x
  }

  /** So there is no file that every run delivers at most once. */
  lemma NeverAtMostOnce(files: Files, a: Addr)
    requires a in files && Sendable(files[a])
    ensures exists run: seq<State> ::
              IsRun(files, run) && !AtMostOnce(run[|run| - 1].sessions, Full(files, a))
  {
    var run := DeliveredManyTimes(files, a, 2);
    hide IsRun, At, PacketsUp, Full;
    assert run[|run| - 1].sessions[0] == run[|run| - 1].sessions[1] == Full(files, a);
  }

  // ---------------------------------------------------------------- slots that stay taken

  /** A late copy of chunk 2 or a later one opens a session that has delivered nothing. */
  lemma LateChunk(files: Files, run: seq<State>, a: Addr, p: nat, k: nat) returns (longer: seq<State>)
    requires IsRun(files, run) && a in files && Sendable(files[a]) && 2 <= k <= Chunks(files[a])
    requires var s := run[|run| - 1];
             && |s.con| == |s.owner| && Reserved(s.con, a, p) && s.con[p].free
             && (a, Packet(files[a], k)) in s.up
    ensures IsRun(files, longer)
    ensures var s, t := run[|run| - 1], longer[|longer| - 1];
            && |t.con| == |t.owner| && p < |s.con| && t.con == s.con[p := Slot(false, 0, a)]
            && t.sessions == s.sessions + [Session(a, [])] && t.clients == s.clients && t.up == s.up
  {
    var s, d := run[|run| - 1], Packet(files[a], k);
    assert Decide(0, d) == TooFar by { PacketFields(files[a], k); }
    ServedAt(s.con, a, p, d, 0);
    hide Num, Packet, Decide, Served, Init, Next;
    var e := Serve(a, d, false, p, TooFar, s.con[p := Slot(false, 0, a)]);
    assert Enabled(files, s, e);
    longer := Extend(files, run, Apply(files, s, e));
  }

  /** The addresses of multi-chunk clients, no two the same. */
  ghost predicate LongTransfers(files: Files, who: seq<Addr>) {
    && |who| == MAX_ADDR
    && (forall i :: 0 <= i < |who| ==> who[i] in files && Sendable(files[who[i]]) && Chunks(files[who[i]]) >= 2)
    && (forall i, j :: 0 <= i < j < |who| ==> who[i] != who[j])
  }

  /** The first j of them are done, and the last j slots hold empty sessions of theirs. */
  ghost predicate Held(files: Files, s: State, who: seq<Addr>, j: nat)
    requires LongTransfers(files, who) && j <= MAX_ADDR
  {
    && |s.con| == |s.owner| == MAX_ADDR && s.clients.Keys == files.Keys
    && (forall i :: 0 <= i < MAX_ADDR ==>
          if i < MAX_ADDR - j then s.con[i].free else s.con[i] == Slot(false, 0, who[4 - i]))
    && (forall i :: 0 <= i < MAX_ADDR ==>
          if i < j then s.clients[who[i]].pc.Finished? else s.clients[who[i]] == START)
  }

  lemma HoldOneMore(files: Files, run: seq<State>, who: seq<Addr>, j: nat) returns (longer: seq<State>)
    requires IsRun(files, run) && LongTransfers(files, who) && j < MAX_ADDR
    requires Held(files, run[|run| - 1], who, j)
    ensures IsRun(files, longer) && Held(files, longer[|longer| - 1], who, j + 1)
  {
    hide Init, Next, Packet, Deliveries;
    var s, a, p := run[|run| - 1], who[j], 4 - j;
    assert At(files, s, a, p, s.sessions, 0) && ClientAt(files, s, a, 0);
    longer := Transfer(files, run, a, p, s.sessions, 0);
    var t := longer[|longer| - 1];
    longer := LateChunk(files, longer, a, p, 2);
    HeldAfter(files, s, t, longer[|longer| - 1], who, j);
  }

  lemma HeldAfter(files: Files, s: State, t: State, u: State, who: seq<Addr>, j: nat)
    requires LongTransfers(files, who) && j < MAX_ADDR && Held(files, s, who, j)
    requires Others(s, t, who[j], 4 - j) && ClientAt(files, t, who[j], Chunks(files[who[j]]))
    requires |u.con| == |u.owner| && u.con == t.con[4 - j := Slot(false, 0, who[j])] && u.clients == t.clients
    ensures Held(files, u, who, j + 1)
  {
  }

  lemma {:induction false} HoldMany(files: Files, who: seq<Addr>, j: nat) returns (run: seq<State>)
    requires LongTransfers(files, who) && j <= MAX_ADDR
    ensures IsRun(files, run) && Held(files, run[|run| - 1], who, j)
  {
    if j == 0 {
      var s := Start(files);
      run := [s];
    } else {
      run := HoldMany(files, who, j - 1);
      run := HoldOneMore(files, run, who, j - 1);
    }
  }

  /** Five finished transfers of more than one chunk can leave the whole table occupied by empty
      sessions of theirs, so that the server ignores every other address. */
  lemma FinishedClientsFillTable(files: Files, who: seq<Addr>) returns (run: seq<State>)
    requires LongTransfers(files, who)
    ensures IsRun(files, run)
    ensures var s := run[|run| - 1];
            && (forall i :: 0 <= i < MAX_ADDR ==> who[i] in s.clients && s.clients[who[i]].pc.Finished?)
            && |s.con| == MAX_ADDR && (forall i :: 0 <= i < MAX_ADDR ==> s.con[i] == Slot(false, 0, who[4 - i]))
            && forall a, d, broken, pos, v, con' ::
                 a !in who && Served(s.con, a, d, broken, pos, v, con') ==> v == TableFull && con' == s.con
  {
    run := HoldMany(files, who, MAX_ADDR);
    hide IsRun;
    var s := run[|run| - 1];
    assert Exclusive(s.con);
    forall a, d, broken, pos, v, con' | a !in who && Served(s.con, a, d, broken, pos, v, con')
      ensures v == TableFull && con' == s.con
    {
      ServedKeepsSessions(s.con, a, d, broken, pos, v, con');
    }
  }

  /** Every slot is occupied for a client that has finished. */
  ghost predicate Taken(files: Files, s: State) {
    && |s.con| == MAX_ADDR
    && forall i :: 0 <= i < MAX_ADDR ==>
         && !s.con[i].free && s.con[i].addr in files && s.con[i].addr in s.clients
         && s.clients[s.con[i].addr].pc.Finished?
  }

  ghost predicate Long(files: Files, a: Addr) {
    a in files ==> Chunks(files[a]) >= 2
  }

  /** No slot is ever occupied for the client of a one-chunk file: its only packet carries the
      last flag, so the turn that claims a slot for it frees the slot again. */
  ghost predicate NoShort(files: Files, con: seq<Slot>) {
    forall i :: 0 <= i < |con| && !con[i].free ==> Long(files, con[i].addr)
  }

  /** The slot found for an address without a session stands at 0. */
  lemma FoundNew(con: seq<Slot>, a: Addr, d: Datagram, broken: bool, pos: int, v: Verdict, con': seq<Slot>)
    requires Served(con, a, d, broken, pos, v, con') && pos >= 0
    requires forall i :: 0 <= i < |con| ==> !Matches(con[i], a)
    requires Decide(0, d) == Deliver(true)
    ensures pos < |con| == |con'| && con'[pos].free
    ensures forall i :: 0 <= i < |con| && i != pos ==> con'[i] == con[i]
  {
    hide Decide;
  }

  lemma ServeNoShort(files: Files, s: State, e: Step)
    requires Inv(files, s) && e.Serve? && Enabled(files, s, e) && NoShort(files, s.con)
    ensures NoShort(files, e.con')
  {
    ServedKeepsSessions(s.con, e.a, e.d, e.broken, e.pos, e.v, e.con');
    hide Served, Exclusive;
    if e.pos >= 0 && !Long(files, e.a) {
      assert Decide(0, e.d) == Deliver(true) by { OnlyPacket(files, s, e.a, e.d); }
      hide Inv, Num;
      FoundNew(s.con, e.a, e.d, e.broken, e.pos, e.v, e.con');
    } else if e.pos >= 0 {
      ServedElsewhere(s.con, e.a, e.d, e.broken, e.pos, e.v, e.con');
    }
  }

  lemma ServedElsewhere(con: seq<Slot>, a: Addr, d: Datagram, broken: bool, pos: int, v: Verdict, con': seq<Slot>)
    requires Served(con, a, d, broken, pos, v, con') && pos >= 0
    ensures |con'| == |con| && forall i :: 0 <= i < |con| && i != pos ==> con'[i] == con[i]
  {
  }

  lemma OnlyPacket(files: Files, s: State, a: Addr, d: Datagram)
    requires Inv(files, s) && (a, d) in s.up && !Long(files, a)
    ensures Decide(0, d) == Deliver(true)
  {
    assert Genuine(files, a, d);
    PacketFields(files[a], 1);
  }

  lemma {:induction false} RunNoShort(files: Files, run: seq<State>)
    requires IsRun(files, run) && forall a :: a in files ==> Sendable(files[a])
    ensures NoShort(files, run[|run| - 1].con)
    decreases |run|
  {
    hide Inv, Enabled, Apply;
    var k := |run| - 1;
    if k > 0 {
      hide NoShort, Init;
      RunNoShort(files, run[..k]);
      RunInv(files, run[..k]);
      assert Next(files, run[k - 1], run[k]);
      var e :| Enabled(files, run[k - 1], e) && run[k] == Apply(files, run[k - 1], e);
      StepNoShort(files, run[k - 1], e);
    }
  }

  lemma StepNoShort(files: Files, s: State, e: Step)
    requires Inv(files, s) && Enabled(files, s, e) && NoShort(files, s.con)
    ensures NoShort(files, Apply(files, s, e).con)
  {
    if e.Serve? {
      ServeNoShort(files, s, e);
    }
    hide Inv, Served, NoShort, Packet, Num;
  }

  /** Finished transfers can keep the whole table taken if and only if there are five of more than
      one chunk. */
  lemma WhenTableCanBeTaken(files: Files)
    requires forall a :: a in files ==> Sendable(files[a])
    ensures (exists run: seq<State> :: IsRun(files, run) && Taken(files, run[|run| - 1]))
            <==> exists who: seq<Addr> :: LongTransfers(files, who)
  {
    hide Init, Next, Taken, Inv, NoShort;
    if who: seq<Addr> :| LongTransfers(files, who) {
      var run := FinishedClientsFillTable(files, who);
      TakenByThese(files, run[|run| - 1], who);
    }
    if run: seq<State> :| IsRun(files, run) && Taken(files, run[|run| - 1]) {
      RunInv(files, run);
      ExclusiveIn(files, run[|run| - 1]);
      RunNoShort(files, run);
      TakenByLong(files, run[|run| - 1]);
    }
  }

  lemma ExclusiveIn(files: Files, s: State)
    requires Inv(files, s)
    ensures Exclusive(s.con)
  {
  }

  lemma TakenByThese(files: Files, s: State, who: seq<Addr>)
    requires LongTransfers(files, who) && |s.con| == MAX_ADDR
    requires forall i :: 0 <= i < MAX_ADDR ==> who[i] in s.clients && s.clients[who[i]].pc.Finished?
    requires forall i :: 0 <= i < MAX_ADDR ==> s.con[i] == Slot(false, 0, who[4 - i])
    ensures Taken(files, s)
  {
  }

  lemma TakenByLong(files: Files, s: State)
    requires forall a :: a in files ==> Sendable(files[a])
    requires Taken(files, s) && Exclusive(s.con) && NoShort(files, s.con)
    ensures exists who: seq<Addr> :: LongTransfers(files, who)
  {
    var who := [s.con[0].addr, s.con[1].addr, s.con[2].addr, s.con[3].addr, s.con[4].addr];
    assert forall i :: 0 <= i < MAX_ADDR ==> who[i] == s.con[i].addr;
    assert LongTransfers(files, who);
  }
}

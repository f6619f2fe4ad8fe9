/** The file transfer end to end: any number of clients, one transfer per address, against
    one server, over a network that loses, duplicates and reorders datagrams.  Addresses that
    do not run the client may send the server anything. */
module UdpTransfer {
  import opened Common
  import opened SopNet
  import opened UdpServer
  import opened UdpClient

  type Files = map<Addr, seq<byte>>

  /** One delivered datagram: its number, its flag and the payload handed to printf. */
  datatype Delivery = Delivery(chunkNo: int, last: bool, data: seq<byte>)

  /** One use of a server slot for one address, with everything it delivered. */
  datatype Session = Session(addr: Addr, log: seq<Delivery>)

  /** `up` and `down` hold every datagram ever sent: receiving does not remove one (so it may
      be duplicated and reordered) and nothing forces it to be received (so it may be lost).
      `owner[i]` is the latest session of slot i. */
  datatype State = State(
    con: seq<Slot>,
    owner: seq<nat>,
    sessions: seq<Session>,
    up: set<(Addr, Datagram)>,
    down: set<(Addr, Datagram)>,
    clients: map<Addr, Client>)

  datatype Step =
    | Send(a: Addr)
    | Wait(a: Addr, got: Option<Datagram>)
    | ForeignSend(a: Addr, d: Datagram)
    | Serve(a: Addr, d: Datagram, broken: bool, pos: int, v: Verdict, con': seq<Slot>)

  ghost predicate Init(files: Files, s: State) {
    && |s.con| == |s.owner| == MAX_ADDR
    && (forall i :: 0 <= i < MAX_ADDR ==> s.con[i].free)
    && s.sessions == [] && s.up == {} && s.down == {}
    && s.clients == map a | a in files :: START
  }

  ghost predicate Enabled(files: Files, s: State, e: Step) {
    match e
    case Send(a) => a in files && a in s.clients && s.clients[a].pc.Sending? && Sendable(files[a])
                    && 1 <= s.clients[a].chunk <= Chunks(files[a])
    case Wait(a, got) => a in files && a in s.clients && s.clients[a].pc.Waiting?
                         && (got.Some? ==> (a, got.value) in s.down)
    case ForeignSend(a, d) => a !in files
    case Serve(a, d, broken, pos, v, con') =>
      (a, d) in s.up && Served(s.con, a, d, broken, pos, v, con') && |s.owner| == |s.con|
  }

  /** The sessions after a Serve step: one is opened when the slot was free, and a delivery is
      appended to the session that owns the slot. */
  function OwnerAfter(s: State, a: Addr, pos: nat): (seq<nat>, seq<Session>)
    requires pos < |s.con| == |s.owner|
  {
    if s.con[pos].free then (s.owner[pos := |s.sessions|], s.sessions + [Session(a, [])])
    else (s.owner, s.sessions)
  }

  function Logged(sessions: seq<Session>, id: nat, d: Datagram, v: Verdict): seq<Session> {
    if v.Deliver? && id < |sessions| then
      sessions[id := sessions[id].(log := sessions[id].log + [Delivery(Num(d), v.last, Payload(d))])]
    else sessions
  }

  ghost function Apply(files: Files, s: State, e: Step): State
    requires Enabled(files, s, e)
  {
    match e
    case Send(a) =>
      s.(clients := s.clients[a := AfterSend(s.clients[a])],
         up := s.up + {(a, Packet(files[a], s.clients[a].chunk))})
    case Wait(a, got) =>
      s.(clients := s.clients[a := AfterWait(files[a], s.clients[a], got)])
    case ForeignSend(a, d) => s.(up := s.up + {(a, d)})
    case Serve(a, d, broken, pos, v, con') =>
      if pos < 0 then s
      else
        var (owner, sessions) := OwnerAfter(s, a, pos);
        s.(con := con', owner := owner, sessions := Logged(sessions, owner[pos], d, v),
           down := s.down + if Acknowledged(v, broken) then {(a, d)} else {})
  }

  ghost predicate Next(files: Files, s: State, t: State) {
    exists e :: Enabled(files, s, e) && t == Apply(files, s, e)
  }

  ghost predicate IsRun(files: Files, run: seq<State>) {
    && |run| > 0 && Init(files, run[0])
    && forall i :: 0 < i < |run| ==> Next(files, run[i - 1], run[i])
  }

  // ---------------------------------------------------------------- invariant

  /** Deliveries 1..k of a file. */
  function Deliveries(file: seq<byte>, k: nat): (log: seq<Delivery>)
    requires k <= Chunks(file)
    ensures |log| == k
  {
    if k == 0 then []
    else Deliveries(file, k - 1) + [Delivery(k, k == Chunks(file), Padded(Part(file, k)))]
  }

  /** Some session of address a has delivered at least the first c chunks. */
  ghost predicate Covered(s: State, a: Addr, c: int) {
    c <= 0 || exists id :: 0 <= id < |s.sessions| && s.sessions[id].addr == a && |s.sessions[id].log| >= c
  }

  /** A datagram of a client address is an uncorrupted packet of its file. */
  ghost predicate Genuine(files: Files, a: Addr, d: Datagram) {
    a in files ==> && Sendable(files[a]) && 1 <= Num(d) <= Chunks(files[a])
                   && d == Packet(files[a], Num(d))
  }

  ghost predicate SlotOk(s: State, i: nat)
    requires i < |s.con| == |s.owner|
  {
    !s.con[i].free ==>
      && s.owner[i] < |s.sessions|
      && s.sessions[s.owner[i]].addr == s.con[i].addr
      && |s.sessions[s.owner[i]].log| == s.con[i].chunkNo
  }

  /** The log of a session is exactly chunks 1..|log| of its client's file. */
  ghost predicate SessionOk(files: Files, x: Session) {
    x.addr in files ==> |x.log| <= Chunks(files[x.addr]) && x.log == Deliveries(files[x.addr], |x.log|)
  }

  ghost predicate ClientCovered(files: Files, s: State, a: Addr)
    requires a in files && a in s.clients
  {
    var c := s.clients[a];
    && Sendable(files[a]) && ClientOk(files[a], c)
    && Covered(s, a, Num(c.reply)) && Covered(s, a, c.chunk - 1)
  }

  ghost predicate ServerInv(files: Files, s: State) {
    && |s.con| == |s.owner| == MAX_ADDR && Exclusive(s.con)
    && (forall i :: 0 <= i < |s.con| ==> SlotOk(s, i))
    && (forall i :: 0 <= i < |s.sessions| ==> SessionOk(files, s.sessions[i]))
  }

  ghost predicate NetInv(files: Files, s: State) {
    && (forall p :: p in s.up ==> Genuine(files, p.0, p.1))
    && (forall p :: p in s.down ==> Genuine(files, p.0, p.1) && Covered(s, p.0, Num(p.1)))
  }

  ghost predicate ClientsInv(files: Files, s: State) {
    && s.clients.Keys == files.Keys
    && (forall a :: a in files ==> ClientCovered(files, s, a))
  }

  ghost predicate Inv(files: Files, s: State) {
    ServerInv(files, s) && NetInv(files, s) && ClientsInv(files, s)
  }

  /** Whatever was covered in s is covered in t. */
  ghost predicate KeepsCover(s: State, t: State) {
    forall a, c :: Covered(s, a, c) ==> Covered(t, a, c)
  }

  /** Sessions are only added, and their logs only grow. */
  ghost predicate Grows(s: State, t: State) {
    && |s.sessions| <= |t.sessions|
    && forall i :: 0 <= i < |s.sessions| ==>
         t.sessions[i].addr == s.sessions[i].addr && s.sessions[i].log <= t.sessions[i].log
  }

  lemma GrowsKeepsCover(s: State, t: State)
    requires Grows(s, t)
    ensures KeepsCover(s, t)
  {
    forall a, c | Covered(s, a, c)
      ensures Covered(t, a, c)
    {
      if c > 0 {
        var id :| 0 <= id < |s.sessions| && s.sessions[id].addr == a && |s.sessions[id].log| >= c;
        assert t.sessions[id].addr == a;
      }
    }
  }

  lemma InitInv(files: Files, s: State)
    requires Init(files, s) && forall a :: a in files ==> Sendable(files[a])
    ensures Inv(files, s)
  {
    ZeroReply();
    forall a | a in files
      ensures ClientCovered(files, s, a)
    {
      StartOk(files[a]);
    }
  }

  /** Steps that leave the server alone keep everything said about it. */
  lemma ServerFrame(files: Files, s: State, t: State)
    requires ServerInv(files, s) && t.con == s.con && t.owner == s.owner && t.sessions == s.sessions
    ensures ServerInv(files, t) && KeepsCover(s, t)
  {
    hide Num, Packet, SessionOk;
    assert forall i :: 0 <= i < |s.con| ==> SlotOk(s, i) ==> SlotOk(t, i);
    GrowsKeepsCover(s, t);
  }

  /** Clients that do not move are carried over. */
  lemma ClientsFrame(files: Files, s: State, t: State, except: set<Addr>)
    requires ClientsInv(files, s) && KeepsCover(s, t) && t.clients.Keys == s.clients.Keys
    requires forall a :: a in files && a !in except ==> t.clients[a] == s.clients[a]
    requires forall a :: a in files && a in except ==> ClientCovered(files, t, a)
    ensures ClientsInv(files, t)
  {
    hide Num, Packet, ClientOk, Covered;
    forall a | a in files
      ensures ClientCovered(files, t, a)
    {
      assert ClientCovered(files, s, a);
    }
  }

  /** Traffic is carried over, together with new genuine requests and covered replies. */
  lemma NetFrame(files: Files, s: State, t: State, up: set<(Addr, Datagram)>, down: set<(Addr, Datagram)>)
    requires NetInv(files, s) && KeepsCover(s, t)
    requires t.up == s.up + up && t.down == s.down + down
    requires forall p :: p in up ==> Genuine(files, p.0, p.1)
    requires forall p :: p in down ==> Genuine(files, p.0, p.1) && Covered(t, p.0, Num(p.1))
    ensures NetInv(files, t)
  {
    hide Num, Genuine, Covered;
  }

  lemma SendInv(files: Files, s: State, e: Step)
    requires Inv(files, s) && e.Send? && Enabled(files, s, e)
    ensures Inv(files, Apply(files, s, e))
  {
    var t := Apply(files, s, e);
    var d := Packet(files[e.a], s.clients[e.a].chunk);
    PacketFields(files[e.a], s.clients[e.a].chunk);
    hide Num, Packet, ServerInv, NetInv;
    ServerFrame(files, s, t);
    assert Genuine(files, e.a, d);
    hide Genuine, Covered;
    NetFrame(files, s, t, {(e.a, d)}, {});
    assert ClientCovered(files, s, e.a);
    ClientOkSteps(files[e.a], s.clients[e.a], None);
    hide ClientOk;
    ClientsFrame(files, s, t, {e.a});
  }

  lemma WaitInv(files: Files, s: State, e: Step)
    requires Inv(files, s) && e.Wait? && Enabled(files, s, e)
    ensures Inv(files, Apply(files, s, e))
  {
    var t := Apply(files, s, e);
    hide Num, Packet, ServerInv;
    ServerFrame(files, s, t);
    assert Covered(t, e.a, 0);
    hide Covered, Genuine;
    NetFrame(files, s, t, {}, {});
    assert e.got.Some? ==> Covered(s, e.a, Num(e.got.value));
    hide NetInv;
    assert ClientCovered(files, s, e.a);
    WaitCovered(files, s, t, e);
    hide AfterWait, ClientCovered;
    ClientsFrame(files, s, t, {e.a});
  }

  lemma WaitCovered(files: Files, s: State, t: State, e: Step)
    requires e.Wait? && Enabled(files, s, e) && t == Apply(files, s, e)
    requires ClientCovered(files, s, e.a) && Covered(t, e.a, 0) && KeepsCover(s, t)
    requires e.got.Some? ==> Covered(s, e.a, Num(e.got.value))
    ensures ClientCovered(files, t, e.a)
  {
    ZeroReply();
    ClientOkSteps(files[e.a], s.clients[e.a], e.got);
    hide Num, Packet, Covered, ClientOk;
  }

  lemma ForeignInv(files: Files, s: State, e: Step)
    requires Inv(files, s) && e.ForeignSend? && Enabled(files, s, e)
    ensures Inv(files, Apply(files, s, e))
  {
    var t := Apply(files, s, e);
    assert Genuine(files, e.a, e.d);
    hide Num, Packet, ServerInv, NetInv, ClientsInv, Genuine, Covered;
    ServerFrame(files, s, t);
    NetFrame(files, s, t, {(e.a, e.d)}, {});
    ClientsFrame(files, s, t, {});
  }

  /** After a Serve step the answering slot owns a session of the sender that is a prefix of
      its file and covers the acknowledgement; every other log is unchanged. */
  ghost predicate Answered(files: Files, s: State, e: Step, t: State)
    requires e.Serve? && 0 <= e.pos < |e.con'|
  {
    && Grows(s, t)
    && |t.owner| == |e.con'| && t.owner[e.pos] < |t.sessions|
    && var x := t.sessions[t.owner[e.pos]];
       && x.addr == e.a && |x.log| == e.con'[e.pos].chunkNo && SessionOk(files, x)
       && (Acknowledged(e.v, e.broken) ==> |x.log| >= Num(e.d))
  }

  /** What a Serve step with an answering slot does to that slot's session. */
  lemma ServeSession(files: Files, s: State, e: Step)
    requires Inv(files, s) && e.Serve? && Enabled(files, s, e) && e.pos >= 0
    ensures e.pos < |s.con| == |e.con'|
    ensures Answered(files, s, e, Apply(files, s, e))
  {
    ServedKeepsSessions(s.con, e.a, e.d, e.broken, e.pos, e.v, e.con');
    SlotServed(s, e);
    var (owner, sessions) := OwnerAfter(s, e.a, e.pos);
    var id := owner[e.pos];
    hide SlotOk, Num, Payload, Genuine, ClientsInv, Served, Exclusive;
    assert SessionOk(files, sessions[id]);
    hide SessionOk, ServerInv;
    if e.v.Deliver? {
      assert (e.a, e.d) in s.up;
      assert Genuine(files, e.a, e.d);
      DeliverExtends(files, sessions[id], e.d, e.v);
    }
    ServeGrows(files, s, e);
    hide Decide, Grows;
  }

  lemma ServeGrows(files: Files, s: State, e: Step)
    requires e.Serve? && Enabled(files, s, e) && 0 <= e.pos < |s.con|
    ensures Grows(s, Apply(files, s, e))
  {
    hide Num, Payload, Served;
  }

  /** The decision is taken on the length of the log of the session that answers. */
  lemma SlotServed(s: State, e: Step)
    requires |s.con| == |s.owner| && forall i :: 0 <= i < |s.con| ==> SlotOk(s, i)
    requires e.Serve? && Served(s.con, e.a, e.d, e.broken, e.pos, e.v, e.con') && e.pos >= 0
    ensures e.pos < |s.con| == |e.con'|
    ensures var (owner, sessions) := OwnerAfter(s, e.a, e.pos);
            && owner[e.pos] < |sessions|
            && var x := sessions[owner[e.pos]];
               && x.addr == e.a && e.v == Decide(|x.log|, e.d)
               && e.con'[e.pos].chunkNo == |x.log| + (if e.v.Deliver? then 1 else 0)
  {
    assert e.pos < |s.con|;
    assert SlotOk(s, e.pos);
    hide Num, LastFlag;
  }

  /** Delivering a genuine datagram next in order extends the log by exactly the next chunk. */
  lemma DeliverExtends(files: Files, x: Session, d: Datagram, v: Verdict)
    requires SessionOk(files, x) && Genuine(files, x.addr, d)
    requires v.Deliver? && v == Decide(|x.log|, d)
    ensures SessionOk(files, x.(log := x.log + [Delivery(Num(d), v.last, Payload(d))]))
  {
    if x.addr in files {
      PacketFields(files[x.addr], Num(d));
      hide Num, Payload, LastFlag, Packet;
    }
  }

  lemma ServeInv(files: Files, s: State, e: Step)
    requires Inv(files, s) && e.Serve? && Enabled(files, s, e)
    ensures Inv(files, Apply(files, s, e))
  {
    ServedKeepsSessions(s.con, e.a, e.d, e.broken, e.pos, e.v, e.con');
    if e.pos >= 0 {
      var t := Apply(files, s, e);
      ServeSession(files, s, e);
      GrowsKeepsCover(s, t);
      ServeServerInv(files, s, e);
      hide ServerInv, ClientsInv, Served, SessionOk, Exclusive;
      var down := if Acknowledged(e.v, e.broken) then {(e.a, e.d)} else {};
      assert Genuine(files, e.a, e.d);
      assert Acknowledged(e.v, e.broken) ==> Covered(t, e.a, Num(e.d));
      hide Num, Genuine, Covered;
      NetFrame(files, s, t, {}, down);
      ClientsFrame(files, s, t, {});
    }
  }

  lemma ServeServerInv(files: Files, s: State, e: Step)
    requires Inv(files, s) && e.Serve? && Enabled(files, s, e) && 0 <= e.pos < |s.con|
    ensures ServerInv(files, Apply(files, s, e))
  {
    var t := Apply(files, s, e);
    ServedKeepsSessions(s.con, e.a, e.d, e.broken, e.pos, e.v, e.con');
    ServeSession(files, s, e);
    hide Num, Packet, Served, NetInv, ClientsInv, SessionOk, Exclusive;
    forall i | 0 <= i < |t.con|
      ensures SlotOk(t, i)
    {
      ServeOther(files, s, e, i);
    }
    hide SlotOk;
    forall i | 0 <= i < |t.sessions|
      ensures SessionOk(files, t.sessions[i])
    {
      assert i == t.owner[e.pos] || t.sessions[i] == s.sessions[i];
    }
  }

  lemma ServeOther(files: Files, s: State, e: Step, i: nat)
    requires Inv(files, s) && e.Serve? && Enabled(files, s, e) && 0 <= e.pos < |s.con| && i < |s.con|
    ensures SlotOk(Apply(files, s, e), i)
  {
    ServedKeepsSessions(s.con, e.a, e.d, e.broken, e.pos, e.v, e.con');
    ServeSession(files, s, e);
    assert SlotOk(s, i) && SlotOk(s, e.pos);
    hide Num, Packet, Decide, ClientOk, SessionOk, Payload;
    if i != e.pos {
      assert e.con'[i] == s.con[i];
    }
  }

  lemma StepInv(files: Files, s: State, e: Step)
    requires Inv(files, s) && Enabled(files, s, e)
    ensures Inv(files, Apply(files, s, e))
  {
    hide Inv, Enabled, Apply;
    match e
    case Send(_) => SendInv(files, s, e);
    case Wait(_, _) => WaitInv(files, s, e);
    case ForeignSend(_, _) => ForeignInv(files, s, e);
    case Serve(_, _, _, _, _, _) => ServeInv(files, s, e);
  }

  lemma {:induction false} RunInv(files: Files, run: seq<State>)
    requires IsRun(files, run) && forall a :: a in files ==> Sendable(files[a])
    ensures Inv(files, run[|run| - 1])
    decreases |run|
  {
    hide Inv, Enabled, Apply, Init;
    var n := |run| - 1;
    if n == 0 {
      InitInv(files, run[0]);
    } else {
      RunInv(files, run[..n]);
      assert Next(files, run[n - 1], run[n]);
      var e :| Enabled(files, run[n - 1], e) && run[n] == Apply(files, run[n - 1], e);
      StepInv(files, run[n - 1], e);
    }
  }

  // ---------------------------------------------------------------- results

  /** The bytes a log carries. */
  function Content(log: seq<Delivery>): seq<byte> {
    if log == [] then [] else Content(log[..|log| - 1]) + log[|log| - 1].data
  }

  /** How many zero bytes fill up the last chunk. */
  function Padding(file: seq<byte>): (n: nat)
    ensures 1 <= n <= CHUNK
  {
    Chunks(file) * 568 - |file|
  }

  /** The file followed by the zeros that fill up its last chunk. */
  function Transmitted(file: seq<byte>): (t: seq<byte>)
    ensures |t| == Chunks(file) * 568
  {
    file + Zeros(Padding(file))
  }

  lemma PartIsSlice(file: seq<byte>, k: nat)
    requires 1 <= k <= Chunks(file)
    ensures Padded(Part(file, k)) == Transmitted(file)[(k - 1) * 568..k * 568]
  {
  }

  /** The deliveries of chunks 1..k carry the first k * 568 bytes of the file, followed by
      zeros only. */
  lemma {:induction false} ContentIsFile(file: seq<byte>, k: nat)
    requires k <= Chunks(file)
    ensures Content(Deliveries(file, k)) == Transmitted(file)[..k * 568]
  {
    if k > 0 {
      ContentIsFile(file, k - 1);
      PartIsSlice(file, k);
      hide Transmitted, Part, Padded;
      assert Deliveries(file, k)[..k - 1] == Deliveries(file, k - 1);
    }
  }

  /** End to end: if the client of address a left its loop without giving up, one single
      server session for a delivered chunks 1..n in order, exactly the last one flagged, and
      the payloads it delivered are the file followed by zeros. */
  lemma EndToEnd(files: Files, run: seq<State>, s: State, a: Addr)
    requires IsRun(files, run) && s == run[|run| - 1] && forall b :: b in files ==> Sendable(files[b])
    requires a in files && a in s.clients && s.clients[a].pc.Finished?
    ensures Session(a, Deliveries(files[a], Chunks(files[a]))) in s.sessions
    ensures Content(Deliveries(files[a], Chunks(files[a]))) == files[a] + Zeros(Padding(files[a]))
  {
    hide ServerInv, NetInv, ClientsInv, Content, Deliveries;
    RunInv(files, run);
    ContentIsFile(files[a], Chunks(files[a]));
    assert Transmitted(files[a])[..Chunks(files[a]) * 568] == Transmitted(files[a]);
    FinishedDelivered(files, s, a);
  }

  lemma FinishedDelivered(files: Files, s: State, a: Addr)
    requires Inv(files, s) && a in files && s.clients[a].pc.Finished?
    ensures Session(a, Deliveries(files[a], Chunks(files[a]))) in s.sessions
  {
    hide Exclusive, SlotOk, Genuine, Num;
    assert ClientCovered(files, s, a);
    assert Covered(s, a, Chunks(files[a]));
    var id :| 0 <= id < |s.sessions| && s.sessions[id].addr == a && |s.sessions[id].log| >= Chunks(files[a]);
    assert SessionOk(files, s.sessions[id]);
  }

  /** Delivery k of a complete log is chunk k, flagged exactly when k is the last. */
  lemma {:induction false} DeliveryAt(file: seq<byte>, n: nat, k: nat)
    requires 1 <= k <= n <= Chunks(file)
    ensures Deliveries(file, n)[k - 1] == Delivery(k, k == Chunks(file), Padded(Part(file, k)))
  {
    if k < n {
      DeliveryAt(file, n - 1, k);
    }
  }

  /** Safety of the session table on every run, for clients and foreign senders alike; the log of
      the session in an occupied slot has exactly chunkNo entries. */
  lemma SessionSafety(files: Files, run: seq<State>, s: State)
    requires IsRun(files, run) && s == run[|run| - 1] && forall b :: b in files ==> Sendable(files[b])
    ensures |s.con| == |s.owner| == MAX_ADDR && Exclusive(s.con)
    ensures forall i :: 0 <= i < MAX_ADDR ==> SlotOk(s, i)
    ensures forall i :: 0 <= i < |s.sessions| ==> SessionOk(files, s.sessions[i])
    ensures forall p :: p in s.down ==> Covered(s, p.0, Num(p.1))
    ensures forall a :: a in files ==> a in s.clients && s.clients[a].sends <= 6 * Chunks(files[a])
  {
    RunInv(files, run);
    hide Num, Exclusive, SlotOk, SessionOk, Genuine, Covered;
    forall a | a in files
      ensures a in s.clients && s.clients[a].sends <= 6 * Chunks(files[a])
    {
      assert ClientCovered(files, s, a);
      SendBound(files[a], s.clients[a]);
    }
  }

  // ---------------------------------------------------------------- what the server shows

  /** What printf("%s") shows of a payload: the bytes before its first NUL, or None if it has none
      and printf reads on behind the buffer. */
  function Shown(payload: seq<byte>): (shown: Option<seq<byte>>)
    ensures shown.Some? ==> 0 !in shown.value && |shown.value| < |payload| && shown.value == payload[..|shown.value|]
    ensures shown.Some? ==> payload[|shown.value|] == 0
    ensures shown.None? <==> 0 !in payload
  {
    if payload == [] then None
    else if payload[0] == 0 then Some([])
    else
      var rest := Shown(payload[1..]);
      if rest.None? then None else Some([payload[0]] + rest.value)
  }

  lemma {:induction false} ShownIs(payload: seq<byte>, n: nat)
    requires n < |payload| && payload[n] == 0 && 0 !in payload[..n]
    ensures Shown(payload) == Some(payload[..n])
  {
    if n > 0 {
      assert payload[..n] == [payload[0]] + payload[1..][..n - 1];
      ShownIs(payload[1..], n - 1);
    }
  }

  ghost predicate ShowsPart(file: seq<byte>, k: nat)
    requires 1 <= k <= Chunks(file)
  {
    Shown(Padded(Part(file, k))) == Some(Part(file, k))
  }

  /** The delivered parts are shown as they are, on every run, exactly for the files of one chunk
      that hold no NUL: a full payload has no terminator, and a NUL in the file ends the output. */
  lemma WhatIsShown(file: seq<byte>)
    ensures (forall k :: 1 <= k <= Chunks(file) ==> ShowsPart(file, k)) <==> |file| < CHUNK && 0 !in file
  {
    if |file| >= CHUNK {
      assert !ShowsPart(file, 1) by {
        var part := Part(file, 1);
        assert |part| == CHUNK && |Padded(part)| == CHUNK;
      }
    } else {
      assert Part(file, 1) == file && Chunks(file) == 1;
      if 0 !in file {
        assert Padded(file)[..|file|] == file;
        ShownIs(Padded(file), |file|);
      } else {
        assert !ShowsPart(file, 1);
      }
    }
  }
}

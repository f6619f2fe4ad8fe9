/** The receiving side of the stop-and-wait file transfer: a table of five sessions and the
    decision to deliver, repeat the acknowledgement, or ignore. */
module UdpServer {
  import opened SopNet

  const MAX_BUF: nat := 576
  const HEADER: nat := 8
  const MAX_ADDR: nat := 5

  datatype Addr = Addr(ip: nat, port: nat)

  type Datagram = d: seq<byte> | |d| == MAX_BUF witness Zeros(MAX_BUF)

  function Num(d: Datagram): int32 { Ntohl(d[..4]) }
  function LastFlag(d: Datagram): int32 { Ntohl(d[4..HEADER]) }
  function Payload(d: Datagram): seq<byte> { d[HEADER..] }

  datatype Slot = Slot(free: bool, chunkNo: nat, addr: Addr)

  ghost predicate Matches(slot: Slot, addr: Addr) {
    !slot.free && slot.addr == addr
  }

  /** The occupied slots belong to distinct addresses. */
  ghost predicate Exclusive(con: seq<Slot>) {
    forall i, j :: 0 <= i < j < |con| && !con[i].free && !con[j].free ==> con[i].addr != con[j].addr
  }

  /** What findIndex must do to the table `con` for `addr`: return an existing session and
      change nothing, or open one in a free slot, or report a full table. */
  ghost predicate Found(con: seq<Slot>, addr: Addr, pos: int, con': seq<Slot>) {
    if exists i :: 0 <= i < |con| && Matches(con[i], addr) then
      && 0 <= pos < |con| && Matches(con[pos], addr) && con' == con
      && forall i :: 0 <= i < pos ==> !Matches(con[i], addr)
    else if exists i :: 0 <= i < |con| && con[i].free then
      && 0 <= pos < |con| && con[pos].free && con' == con[pos := Slot(false, 0, addr)]
      && forall i :: pos < i < |con| ==> !con[i].free
    else
      pos == -1 && con' == con
  }

  datatype Verdict = TableFull | TooFar | Deliver(last: bool) | Repeat

  /** doServer's decision about a datagram whose session stands at `have` chunks. */
  function Decide(have: nat, d: Datagram): Verdict {
    if Num(d) > have + 1 then TooFar
    else if Num(d) == have + 1 then Deliver(LastFlag(d) != 0)
    else Repeat
  }

  /** The session slot after the verdict; an EPIPE from sendto also frees it. */
  function Settle(slot: Slot, v: Verdict, broken: bool): Slot {
    match v
    case Deliver(last) => slot.(free := slot.free || last || broken, chunkNo := slot.chunkNo + 1)
    case Repeat => slot.(free := slot.free || broken)
    case _ => slot
  }

  predicate Acknowledged(v: Verdict, broken: bool) {
    (v.Deliver? || v.Repeat?) && !broken
  }

  /** One turn of doServer's loop, as a relation between tables. */
  ghost predicate Served(con: seq<Slot>, addr: Addr, d: Datagram, broken: bool,
                         pos: int, v: Verdict, con': seq<Slot>) {
    exists mid: seq<Slot> :: && Found(con, addr, pos, mid)
                  && if pos < 0 then v == TableFull && con' == mid
                     else pos < |mid| && v == Decide(mid[pos].chunkNo, d)
                          && con' == mid[pos := Settle(mid[pos], v, broken)]
  }

  /** The relation is a function of the table and the datagram. */
  lemma ServedIsDeterministic(con: seq<Slot>, addr: Addr, d: Datagram, broken: bool,
                              p: int, v: Verdict, c: seq<Slot>, p': int, v': Verdict, c': seq<Slot>)
    requires Served(con, addr, d, broken, p, v, c) && Served(con, addr, d, broken, p', v', c')
    ensures p == p' && v == v' && c == c'
  {
  }

  /** No occupied slot is ever handed to another address, sessions stay exclusive, and the
      slot that answers belongs to the sender. */
  lemma ServedKeepsSessions(con: seq<Slot>, addr: Addr, d: Datagram, broken: bool,
                            pos: int, v: Verdict, con': seq<Slot>)
    requires Exclusive(con) && Served(con, addr, d, broken, pos, v, con')
    ensures Exclusive(con') && |con'| == |con|
    ensures forall i :: 0 <= i < |con| && !con[i].free ==>
              && con'[i].addr == con[i].addr
              && con[i].chunkNo <= con'[i].chunkNo <= con[i].chunkNo + 1
              && (con[i].addr != addr ==> con'[i] == con[i])
    ensures pos >= 0 ==> pos < |con| && con'[pos].addr == addr
    ensures pos < 0 <==> con' == con && v == TableFull
    ensures v == TableFull <==> forall i :: 0 <= i < |con| ==> !con[i].free && con[i].addr != addr
  {
  }

  /** The slot that takes part in a turn: the sender's own, or else the last free one, in which a
      session that stands at 0 is opened. */
  ghost predicate Answers(con: seq<Slot>, addr: Addr, i: int, have: nat) {
    && 0 <= i < |con|
    && if exists j :: 0 <= j < |con| && Matches(con[j], addr) then Matches(con[i], addr) && have == con[i].chunkNo
       else con[i].free && have == 0 && forall j :: i < j < |con| ==> !con[j].free
  }

  /** What a turn does, in terms of the datagram's own number: up to the chunks the session has it
      is acknowledged again and nothing else happens; the next one is delivered, counted and
      acknowledged, and ends the session if flagged; one further on is ignored. */
  lemma ServedCases(con: seq<Slot>, addr: Addr, d: Datagram, broken: bool,
                    pos: int, v: Verdict, con': seq<Slot>, i: int, have: nat)
    requires Exclusive(con) && Served(con, addr, d, broken, pos, v, con') && Answers(con, addr, i, have)
    ensures pos == i
    ensures Num(d) <= have ==> !v.Deliver? && (Acknowledged(v, broken) <==> !broken)
                               && con' == con[i := Slot(broken, have, addr)]
    ensures Num(d) == have + 1 ==> v == Deliver(LastFlag(d) != 0) && (Acknowledged(v, broken) <==> !broken)
                                   && con' == con[i := Slot(LastFlag(d) != 0 || broken, have + 1, addr)]
    ensures Num(d) > have + 1 ==> !v.Deliver? && !Acknowledged(v, broken)
                                  && con' == con[i := Slot(false, have, addr)]
  {
    hide Num, LastFlag;
    AnswersFound(con, addr, i, have);
    var mid := con[i := Slot(false, have, addr)];
    assert mid[i] == Slot(false, have, addr);
    assert Served(con, addr, d, broken, i, Decide(have, d), mid[i := Settle(mid[i], Decide(have, d), broken)]);
    ServedIsDeterministic(con, addr, d, broken, pos, v, con', i, Decide(have, d),
                          mid[i := Settle(mid[i], Decide(have, d), broken)]);
  }

  lemma AnswersFound(con: seq<Slot>, addr: Addr, i: int, have: nat)
    requires Exclusive(con) && Answers(con, addr, i, have)
    ensures Found(con, addr, i, con[i := Slot(false, have, addr)])
  {
    if Matches(con[i], addr) {
      assert con[i := Slot(false, have, addr)] == con;
    }
  }

  /** The server process: its table is an array updated in place. */
  class Server {
    const con: array<Slot>

    ghost predicate Valid()
      reads this, con
    {
      con.Length == MAX_ADDR && Exclusive(con[..])
    }

    constructor (garbage: nat -> Slot)
      ensures Valid() && fresh(con)
      ensures forall i :: 0 <= i < MAX_ADDR ==> con[i].free
    {
      con := new Slot[MAX_ADDR](i requires i >= 0 => garbage(i).(free := true));
    }

    method FindIndex(addr: Addr) returns (pos: int)
      requires Valid()
      modifies con
      ensures Valid() && Found(old(con[..]), addr, pos, con[..])
    {
      var empty := -1;
      pos := -1;
      for i := 0 to con.Length
        invariant pos == -1 && -1 <= empty < i
        invariant forall j :: 0 <= j < i ==> !Matches(con[j], addr)
        invariant forall j :: empty < j < i ==> !con[j].free
        invariant empty >= 0 ==> con[empty].free
      {
        if con[i].free {
          empty := i;
        } else if con[i].addr == addr {
          pos := i;
          assert con[..][i] == con[i];
          break;
        }
      }
      ghost var before := con[..];
      assert pos == -1 ==> forall j :: 0 <= j < |before| ==> !Matches(before[j], addr);
      assert pos == -1 && empty != -1 ==> before[empty].free;
      if pos == -1 && empty != -1 {
        con[empty] := Slot(false, 0, addr);
        pos := empty;
        assert con[..] == before[empty := Slot(false, 0, addr)];
      }
    }

    /** The body of doServer's endless loop for one received datagram.  `delivered` is the payload
        handed to printf, `broken` says that sendto reported EPIPE; the acknowledgement echoes the
        datagram to its sender. */
    method OnDatagram(addr: Addr, buf: Datagram, broken: bool)
      returns (pos: int, v: Verdict, delivered: seq<seq<byte>>, ack: bool)
      requires Valid()
      modifies con
      ensures Valid() && Served(old(con[..]), addr, buf, broken, pos, v, con[..])
      ensures delivered == if v.Deliver? then [Payload(buf)] else []
      ensures ack == Acknowledged(v, broken)
      ensures forall i, have: nat :: Answers(old(con[..]), addr, i, have) ==>
                && delivered == (if Num(buf) == have + 1 then [buf[8..]] else [])
                && (ack <==> Num(buf) <= have + 1 && !broken)
                && con[..] == old(con[..])[i :=
                     if Num(buf) <= have then Slot(broken, have, addr)
                     else if Num(buf) == have + 1 then Slot(LastFlag(buf) != 0 || broken, have + 1, addr)
                     else Slot(false, have, addr)]
    {
      ghost var before := con[..];
      delivered, ack, v := [], false, TableFull;
      pos := FindIndex(addr);
      ghost var mid := con[..];
      assert Found(before, addr, pos, mid);
      if pos >= 0 {
        var i := pos;
        var chunkNo := Ntohl(buf[..4]);
        var last := Ntohl(buf[4..HEADER]);
        if chunkNo > con[i].chunkNo + 1 {
          v := TooFar;
          assert con[..] == mid[pos := Settle(mid[pos], v, broken)];
        } else {
          v := Repeat;
          if chunkNo == con[i].chunkNo + 1 {
            v := Deliver(last != 0);
            if last != 0 {
              con[i] := con[i].(free := true);
            }
            delivered := [buf[HEADER..]];
            con[i] := con[i].(chunkNo := con[i].chunkNo + 1);
          }
          if broken {
            con[i] := con[i].(free := true);
          } else {
            ack := true;
          }
          assert con[..] == mid[pos := Settle(mid[pos], v, broken)];
        }
      }
      ServedKeepsSessions(before, addr, buf, broken, pos, v, con[..]);
      forall i, have: nat | Answers(before, addr, i, have)
        ensures v.Deliver? <==> Num(buf) == have + 1
        ensures Acknowledged(v, broken) <==> Num(buf) <= have + 1 && !broken
        ensures con[..] == before[i :=
                  if Num(buf) <= have then Slot(broken, have, addr)
                  else if Num(buf) == have + 1 then Slot(LastFlag(buf) != 0 || broken, have + 1, addr)
                  else Slot(false, have, addr)]
      {
        ServedCases(before, addr, buf, broken, pos, v, con[..], i, have);
      }
    }
  }
}

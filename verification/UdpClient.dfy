/** The sending side of the stop-and-wait file transfer: chunking, numbering, at most six
    transmissions of a chunk, and matching of the echoed acknowledgement. */
module UdpClient {
  import opened Common
  import opened SopNet
  import opened UdpServer

  const CHUNK: nat := 568
  const MAX_SENDS: nat := 6

  /** A file of length L travels in L / 568 + 1 chunks; the last is shorter, maybe empty. */
  function Chunks(file: seq<byte>): (n: nat)
    ensures n >= 1 && (n - 1) * 568 <= |file| < n * 568
  {
    |file| / 568 + 1
  }

  /** Chunk numbers fit the signed 32-bit header field. */
  ghost predicate Sendable(file: seq<byte>) {
    Chunks(file) < TWO_31
  }

  /** The part of the file that chunk k (counted from 1) carries. */
  function Part(file: seq<byte>, k: nat): (p: seq<byte>)
    requires 1 <= k <= Chunks(file)
    ensures |p| <= CHUNK
    ensures |p| < CHUNK <==> k == Chunks(file)
  {
    file[(k - 1) * 568..Min(k * 568, |file|)]
  }

  function Padded(part: seq<byte>): (p: seq<byte>)
    requires |part| <= CHUNK
    ensures |p| == CHUNK
  {
    part + Zeros(CHUNK - |part|)
  }

  /** The datagram of chunk k. */
  function Packet(file: seq<byte>, k: nat): (d: Datagram)
    requires Sendable(file) && 1 <= k <= Chunks(file)
  {
    Htonl(k) + Htonl(if k == Chunks(file) then 1 else 0) + Padded(Part(file, k))
  }

  lemma PacketFields(file: seq<byte>, k: nat)
    requires Sendable(file) && 1 <= k <= Chunks(file)
    ensures Num(Packet(file, k)) == k
    ensures LastFlag(Packet(file, k)) != 0 <==> k == Chunks(file)
    ensures Payload(Packet(file, k)) == Padded(Part(file, k))
  {
    var d := Packet(file, k);
    var last := if k == Chunks(file) then 1 else 0;
    assert d[..4] == Htonl(k);
    assert d[4..HEADER] == Htonl(last);
    NtohlHtonl(k);
    NtohlHtonl(last);
  }

  datatype Pc = Sending | Waiting | Finished | GaveUp

  /** The client between two kernel calls: the chunk being transferred, how often it was
      sent, what the reply buffer holds, and the total number of datagrams sent. */
  datatype Client = Client(chunk: nat, counter: nat, reply: Datagram, sends: nat, pc: Pc)

  const START: Client := Client(1, 0, Zeros(MAX_BUF), 0, Sending)

  function AfterSend(c: Client): Client {
    c.(counter := c.counter + 1, sends := c.sends + 1, pc := Waiting)
  }

  /** What follows the wait for a reply: None is the alarm, Some the datagram received. */
  function AfterWait(file: seq<byte>, c: Client, got: Option<Datagram>): Client {
    var reply := if got.Some? then got.value else c.reply;
    if Num(reply) != c.chunk then
      c.(reply := reply, pc := if c.counter <= 5 then Sending else GaveUp)
    else if c.chunk < Chunks(file) then
      c.(chunk := c.chunk + 1, counter := 0, reply := Zeros(MAX_BUF), pc := Sending)
    else
      c.(reply := reply, pc := Finished)
  }

  /** What holds of a client at every point of its run, whatever replies it gets. */
  ghost predicate ClientOk(file: seq<byte>, c: Client) {
    && 1 <= c.chunk <= Chunks(file)
    && (c.pc.Sending? ==> c.counter < MAX_SENDS)
    && c.counter <= MAX_SENDS
    && c.sends <= 6 * (c.chunk - 1) + c.counter
    && (c.pc.Finished? ==> c.chunk == Chunks(file) && Num(c.reply) == c.chunk)
    && (c.pc.GaveUp? ==> c.counter == MAX_SENDS && Num(c.reply) != c.chunk)
    && (c.pc.Sending? ==> Num(c.reply) != c.chunk)
    && (c.pc.Waiting? ==> Num(c.reply) != c.chunk)
  }

  lemma ZeroReply()
    ensures Num(Zeros(MAX_BUF)) == 0
  {
    assert Zeros(MAX_BUF)[..4] == Zeros(4);
  }

  lemma ClientOkSteps(file: seq<byte>, c: Client, got: Option<Datagram>)
    requires ClientOk(file, c)
    ensures c.pc.Sending? ==> ClientOk(file, AfterSend(c))
    ensures c.pc.Waiting? ==> ClientOk(file, AfterWait(file, c, got))
  {
    ZeroReply();
  }

  lemma StartOk(file: seq<byte>)
    ensures ClientOk(file, START)
  {
    ZeroReply();
  }

  /** The client after k complete exchanges with the given replies. */
  function ClientAfter(file: seq<byte>, replies: nat -> Option<Datagram>, k: nat): (c: Client)
    ensures 1 <= c.chunk <= Chunks(file)
  {
    if k == 0 then START
    else
      var c := ClientAfter(file, replies, k - 1);
      if c.pc.Sending? then AfterWait(file, AfterSend(c), replies(k - 1)) else c
  }

  lemma {:induction false} ClientAfterOk(file: seq<byte>, replies: nat -> Option<Datagram>, k: nat)
    ensures ClientOk(file, ClientAfter(file, replies, k))
    ensures !ClientAfter(file, replies, k).pc.Waiting?
  {
    ZeroReply();
    hide Num;
    if k > 0 {
      ClientAfterOk(file, replies, k - 1);
      var c := ClientAfter(file, replies, k - 1);
      if c.pc.Sending? {
        ClientOkSteps(file, c, None);
        ClientOkSteps(file, AfterSend(c), replies(k - 1));
      }
    }
  }

  /** In exchange i the machine sends chunk c and gets no datagram with that number back. */
  ghost predicate Unanswered(file: seq<byte>, replies: nat -> Option<Datagram>, i: nat, c: nat) {
    && ClientAfter(file, replies, i).pc.Sending? && ClientAfter(file, replies, i).chunk == c
    && (replies(i).Some? ==> Num(replies(i).value) != c)
  }

  /** The counter tells how many exchanges the current chunk has had, all without an answer. */
  lemma {:induction false} CounterIs(file: seq<byte>, replies: nat -> Option<Datagram>, k: nat)
    ensures var c := ClientAfter(file, replies, k);
            !c.pc.Finished? && (c.pc.GaveUp? ==> k > 0 && ClientAfter(file, replies, k - 1).pc.Sending?)
            ==> c.counter <= k && forall i: nat :: k - c.counter <= i < k ==> Unanswered(file, replies, i, c.chunk)
  {
    ClientAfterOk(file, replies, k);
    if k > 0 {
      CounterIs(file, replies, k - 1);
      ClientAfterOk(file, replies, k - 1);
      hide Num, ClientOk;
    }
  }

  ghost predicate SixUnanswered(file: seq<byte>, replies: nat -> Option<Datagram>, k: nat, c: nat)
    requires k >= 6
  {
    forall i: nat :: k - 6 <= i < k ==> Unanswered(file, replies, i, c)
  }

  /** The client gives up on a chunk in exactly one situation: six times in a row it has sent it
      and not been answered with its number. */
  lemma GivesUpAfterSix(file: seq<byte>, replies: nat -> Option<Datagram>, k: nat)
    requires k > 0 && ClientAfter(file, replies, k - 1).pc.Sending?
    ensures ClientAfter(file, replies, k).pc.GaveUp?
            <==> k >= 6 && SixUnanswered(file, replies, k, ClientAfter(file, replies, k - 1).chunk)
  {
    var b, c := ClientAfter(file, replies, k - 1), ClientAfter(file, replies, k);
    assert c == AfterWait(file, AfterSend(b), replies(k - 1));
    assert c.pc.GaveUp? ==> c.chunk == b.chunk;
    CounterIs(file, replies, k);
    ClientAfterOk(file, replies, k);
    ClientAfterOk(file, replies, k - 1);
    if k >= 6 && SixUnanswered(file, replies, k, b.chunk) {
      CountsUp(file, replies, k, 5, b.chunk);
      assert Unanswered(file, replies, k - 1, b.chunk);
    }
    hide Num, ClientAfter;
  }

  /** After n unanswered exchanges for a chunk the counter is at least n. */
  lemma {:induction false} CountsUp(file: seq<byte>, replies: nat -> Option<Datagram>, k: nat, n: nat, c: nat)
    requires n < 6 <= k && SixUnanswered(file, replies, k, c)
    ensures ClientAfter(file, replies, k - 6 + n).counter >= n
  {
    if n > 0 {
      CountsUp(file, replies, k, n - 1, c);
      assert Unanswered(file, replies, k - 6 + n - 1, c) && Unanswered(file, replies, k - 6 + n, c);
      ClientAfterOk(file, replies, k - 6 + n - 1);
      hide Num;
    }
  }

  /** At most six datagrams per chunk, on every run. */
  lemma SendBound(file: seq<byte>, c: Client)
    requires ClientOk(file, c)
    ensures c.sends <= 6 * Chunks(file)
  {
    assert 6 * (c.chunk - 1) + c.counter <= 6 * c.chunk <= 6 * Chunks(file);
  }

  datatype Outcome = Done | Abandoned | ReadError

  /** One bulk_read of a chunk and the construction of its datagram in `buf`. */
  method BuildChunk(f: File, buf: array<byte>, chunkNo: nat) returns (size: int)
    requires f.Valid() && !f.failed && Sendable(f.data) && buf.Length == MAX_BUF
    requires 1 <= chunkNo <= Chunks(f.data) && f.pos == (chunkNo - 1) * 568
    modifies f, buf
    ensures f.Valid() && (size == -1 <==> f.failed)
    ensures size == -1 || size == |Part(f.data, chunkNo)|
    ensures size >= 0 ==> f.pos == old(f.pos) + size && buf[..] == Packet(f.data, chunkNo)
  {
    size := BulkRead(f, buf, HEADER, CHUNK);
    if size < 0 {
      return;
    }
    ghost var part := Part(f.data, chunkNo);
    assert f.data[old(f.pos)..f.pos] == part;
    assert buf[HEADER..HEADER + size] == part;
    var head := Htonl(chunkNo);
    var last := 0;
    if size < CHUNK {
      last := 1;
      forall i | HEADER + size <= i < MAX_BUF {
        buf[i] := 0;
      }
    }
    assert buf[HEADER..] == Padded(part);
    var flag := Htonl(last);
    forall i | 0 <= i < HEADER {
      buf[i] := if i < 4 then head[i] else flag[i - 4];
    }
    assert buf[HEADER..] == Padded(part);
    assert buf[..HEADER] == head + flag;
    assert buf[..] == buf[..HEADER] + buf[HEADER..];
  }

  /** The first k datagrams that the machine hands to sendto. */
  function Sent(file: seq<byte>, replies: nat -> Option<Datagram>, k: nat): (sent: seq<Datagram>)
    requires Sendable(file)
    ensures |sent| == k
  {
    if k == 0 then []
    else Sent(file, replies, k - 1) + [Packet(file, ClientAfter(file, replies, k - 1).chunk)]
  }

  /** The datagrams of chunks 1..n. */
  function Packets(file: seq<byte>, n: nat): (ps: seq<Datagram>)
    requires Sendable(file) && n <= Chunks(file)
    ensures |ps| == n && forall i :: 0 <= i < n ==> ps[i] == Packet(file, i + 1)
  {
    seq(n, i requires 0 <= i < n => Packet(file, i + 1))
  }

  /** A stream of datagrams with immediate repeats dropped. */
  function Squeezed(s: seq<Datagram>): (r: seq<Datagram>)
    ensures s != [] ==> r != [] && r[|r| - 1] == s[|s| - 1]
    ensures s == [] ==> r == []
  {
    if |s| <= 1 then s
    else if s[|s| - 1] == s[|s| - 2] then Squeezed(s[..|s| - 1])
    else Squeezed(s[..|s| - 1]) + [s[|s| - 1]]
  }

  /** How many chunks the machine has sent at least once. */
  function Started(c: Client): int {
    if c.counter == 0 then c.chunk - 1 else c.chunk
  }

  lemma SqueezeOneMore(s: seq<Datagram>, d: Datagram)
    ensures Squeezed(s + [d]) == if s != [] && s[|s| - 1] == d then Squeezed(s) else Squeezed(s) + [d]
  {
    assert (s + [d])[..|s|] == s;
  }

  lemma NextPacket(file: seq<byte>, n: nat)
    requires Sendable(file) && n < Chunks(file)
    ensures Packets(file, n + 1) == Packets(file, n) + [Packet(file, n + 1)]
    ensures n > 0 ==> Packet(file, n + 1) != Packets(file, n)[n - 1]
  {
    PacketFields(file, n + 1);
    if n > 0 {
      PacketFields(file, n);
    }
  }

  lemma SendOneMore(file: seq<byte>, sent: seq<Datagram>, c: Client)
    requires Sendable(file) && 1 <= c.chunk <= Chunks(file) && Squeezed(sent) == Packets(file, Started(c))
    ensures Squeezed(sent + [Packet(file, c.chunk)]) == Packets(file, c.chunk)
  {
    hide Packet, Squeezed, Packets;
    SqueezeOneMore(sent, Packet(file, c.chunk));
    NextPacket(file, c.chunk - 1);
  }

  /** Sending starts the chunk of the machine, if that has not been done before. */
  lemma StartedNext(file: seq<byte>, replies: nat -> Option<Datagram>, k: nat)
    requires ClientAfter(file, replies, k).counter == 0 ==> ClientAfter(file, replies, k).pc.Sending?
    ensures var c, t := ClientAfter(file, replies, k), ClientAfter(file, replies, k + 1);
            Started(t) == c.chunk && (t.counter == 0 ==> t.pc.Sending?)
  {
    hide Num;
  }

  lemma NothingSent(file: seq<byte>, replies: nat -> Option<Datagram>)
    requires Sendable(file)
    ensures var c := ClientAfter(file, replies, 0);
            Started(c) == 0 && Squeezed(Sent(file, replies, 0)) == Packets(file, 0) && c.pc.Sending?
  {
  }

  /** Whatever replies arrive, the datagrams sent are the packets of the file in order, each
      repeated until the next one starts; a machine that has finished has sent them all. */
  lemma {:induction false} SentInOrder(file: seq<byte>, replies: nat -> Option<Datagram>, k: nat)
    requires Sendable(file)
    ensures var c := ClientAfter(file, replies, k);
            && 0 <= Started(c) <= Chunks(file) && Squeezed(Sent(file, replies, k)) == Packets(file, Started(c))
            && (c.counter == 0 ==> c.pc.Sending?)
  {
    hide ClientAfter, Squeezed, Packets, Packet, Chunks, Started, Sendable;
    if k == 0 {
      NothingSent(file, replies);
    } else {
      SentInOrder(file, replies, k - 1);
      var c := ClientAfter(file, replies, k - 1);
      StartedNext(file, replies, k - 1);
      SendOneMore(file, Sent(file, replies, k - 1), c);
    }
  }

  lemma FinishedSentAll(file: seq<byte>, replies: nat -> Option<Datagram>, k: nat)
    requires Sendable(file) && ClientAfter(file, replies, k).pc.Finished?
    ensures Squeezed(Sent(file, replies, k)) == Packets(file, Chunks(file))
  {
    SentInOrder(file, replies, k);
    ClientAfterOk(file, replies, k);
  }

  /** The machine stands at the start of a chunk, with `sends` datagrams behind it. */
  ghost predicate AtChunk(file: seq<byte>, replies: nat -> Option<Datagram>, sends: nat, chunkNo: nat) {
    ClientAfter(file, replies, sends) == Client(chunkNo, 0, Zeros(MAX_BUF), sends, Sending)
  }

  /** One exchange of the machine: either the chunk is still unconfirmed, or the machine moves on. */
  lemma Exchange(file: seq<byte>, replies: nat -> Option<Datagram>, k: nat, c: Client)
    requires c == ClientAfter(file, replies, k) && c.pc.Sending? && c.sends == k
    ensures var reply := if replies(k).Some? then replies(k).value else c.reply;
            if Num(reply) != c.chunk then
              ClientAfter(file, replies, k + 1)
              == Client(c.chunk, c.counter + 1, reply, k + 1, if c.counter < 5 then Sending else GaveUp)
            else if c.chunk < Chunks(file) then AtChunk(file, replies, k + 1, c.chunk + 1)
            else ClientAfter(file, replies, k + 1) == Client(c.chunk, c.counter + 1, reply, k + 1, Finished)
  {
  }

  /** Where the machine stands once the inner loop for a chunk has ended. */
  ghost predicate AfterChunk(file: seq<byte>, chunkNo: nat, buf2: Datagram, c: Client, sends: nat) {
    if Num(buf2) != chunkNo then c.pc == GaveUp && c.sends == sends
    else if chunkNo < Chunks(file) then c == Client(chunkNo + 1, 0, Zeros(MAX_BUF), sends, Sending)
    else c.pc == Finished && c.sends == sends
  }

  /** The inner loop of doClient: send and wait, up to six times, for one chunk. */
  method ConfirmChunk(ghost file: seq<byte>, replies: nat -> Option<Datagram>, chunkNo: nat,
                      buf: Datagram, before: seq<Datagram>) returns (buf2: Datagram, sent: seq<Datagram>)
    requires Sendable(file) && 1 <= chunkNo <= Chunks(file) && buf == Packet(file, chunkNo)
    requires before == Sent(file, replies, |before|) && AtChunk(file, replies, |before|, chunkNo)
    ensures sent == Sent(file, replies, |sent|)
    ensures AfterChunk(file, chunkNo, buf2, ClientAfter(file, replies, |sent|), |sent|)
  {
    hide Num, Packet, ClientAfter;
    buf2, sent := Zeros(MAX_BUF), before;
    var counter := 0;
    ZeroReply();
    while true
      invariant sent == Sent(file, replies, |sent|) && Num(buf2) != chunkNo && counter <= 5
      invariant ClientAfter(file, replies, |sent|) == Client(chunkNo, counter, buf2, |sent|, Sending)
      decreases 6 - counter
    {
      Exchange(file, replies, |sent|, Client(chunkNo, counter, buf2, |sent|, Sending));
      counter := counter + 1;
      var got := replies(|sent|);
      sent := sent + [buf];
      if got.Some? {
        buf2 := got.value;
      }
      if Num(buf2) == chunkNo || counter > 5 {
        break;
      }
    }
  }

  /** doClient against an arbitrary schedule of short reads and replies: the outcome and the
      datagrams handed to sendto are exactly those of the client machine. */
  method DoClient(f: File, replies: nat -> Option<Datagram>)
    returns (result: Outcome, sent: seq<Datagram>)
    requires f.Valid() && !f.failed && f.pos == 0 && Sendable(f.data)
    modifies f
    ensures sent == Sent(f.data, replies, |sent|) && |sent| <= 6 * Chunks(f.data)
    ensures result.ReadError? <==> f.failed
    ensures result.Done? <==> ClientAfter(f.data, replies, |sent|).pc.Finished?
    ensures result.Abandoned? <==> ClientAfter(f.data, replies, |sent|).pc.GaveUp?
    ensures result.Done? ==> Squeezed(sent) == Packets(f.data, Chunks(f.data))
  {
    hide Num, Packet, Part;
    var buf := new byte[MAX_BUF](_ => 0);
    var chunkNo := 0;
    sent := [];
    while true
      invariant fresh(buf) && f.Valid() && !f.failed && 0 <= chunkNo < Chunks(f.data) && f.pos == chunkNo * 568
      invariant sent == Sent(f.data, replies, |sent|) && AtChunk(f.data, replies, |sent|, chunkNo + 1)
      decreases Chunks(f.data) - chunkNo
    {
      MachineSendBound(f.data, replies, |sent|);
      var size := BuildChunk(f, buf, chunkNo + 1);
      if size < 0 {
        return ReadError, sent;
      }
      chunkNo := chunkNo + 1;
      var buf2;
      buf2, sent := ConfirmChunk(f.data, replies, chunkNo, buf[..], sent);
      MachineSendBound(f.data, replies, |sent|);
      if Num(buf2) != chunkNo {
        return Abandoned, sent;
      }
      if size != CHUNK {
        FinishedSentAll(f.data, replies, |sent|);
        return Done, sent;
      }
    }
  }

  lemma MachineSendBound(file: seq<byte>, replies: nat -> Option<Datagram>, k: nat)
    ensures ClientAfter(file, replies, k).sends <= 6 * Chunks(file)
  {
    ClientAfterOk(file, replies, k);
    SendBound(file, ClientAfter(file, replies, k));
  }
}

/** After the handshake nothing posted is ever out of reach: some continuation delivers everything. */
module Draining {
  import opened Arith
  import opened Messages
  import opened Framing
  import opened Connections
  import opened EndToEnd

  /** Some continuation under the premise leads from `n` to `n'`. */
  ghost predicate Continues(n: Net, n': Net) {
    exists es :: CanRunNet(n, es) && RunNet(n, es) == n' && GatedRun(n, es)
  }

  lemma ContinuesNowhere(n: Net)
    ensures Continues(n, n)
  {
    assert CanRunNet(n, []) && RunNet(n, []) == n && GatedRun(n, []);
  }

  /** One step of one end under the premise. */
  lemma ContinuesAt(n: Net, n': Net, owner: Owner, e: Event, c: Conn, challenge: nat)
    requires challenge < TWO64 && Continues(n, n') && NetInv(n', challenge)
    requires EndEnabled(n'.End(owner), n'.End(Other(owner)), e)
    requires c == Step(n'.End(owner), e) && GatedEnd(n'.End(owner), e)
    ensures Continues(n, n'.With(owner, c)) && NetInv(n'.With(owner, c), challenge)
  {
    hide Step, EndEnabled, GatedEnd, NetInv;
    NetInvStep(n', At(owner, e), challenge);
    var es :| CanRunNet(n, es) && RunNet(n, es) == n' && GatedRun(n, es);
    NetExtend(n, es, At(owner, e));
  }

  /** Open, with its handshake word out, and reading messages. */
  predicate Ready(c: Conn) {
    c.open && WordOut(c) && c.readOp == ReadingMessage
  }

  lemma EndInv(n: Net, owner: Owner, challenge: nat)
    requires challenge < TWO64 && NetInv(n, challenge)
    ensures Inv(n.End(owner)) && SentInv(n.End(owner))
    ensures n.End(owner).receivedBytes <= n.End(Other(owner)).sentBytes
  {
  }

  // ---------------------------------------------------------------- the queue is written out

  /** Only the queue and what was sent of it differ. */
  predicate OnlySent(c: Conn, c': Conn) {
    c' == c.(queue := c'.queue, writeOp := c'.writeOp, sentBytes := c'.sentBytes)
  }

  /** The rest of the header or payload in flight can leave, and its handler can run. */
  lemma FinishOperation(c: Conn) returns (k: nat, c1: Conn, c2: Conn)
    requires Inv(c) && c.open && c.queue != []
    ensures Typed(c) && Enabled(c, SendMessage(k)) && c1 == Step(c, SendMessage(k)) && OnlySent(c, c1)
    ensures Typed(c1) && Enabled(c1, MessageSent(true)) && c2 == Step(c1, MessageSent(true)) && OnlySent(c, c2)
    ensures |c2.queue| < |c.queue| || (c2.queue == c.queue && c.writeOp.WritingHeader? && c2.writeOp.WritingPayload?)
  {
    WriteInFlight(c);
    k := |Outgoing(c.queue, c.writeOp)| - c.writeOp.sent;
    c1 := SendRest(c, k);
    hide Inv, Typed, Step, Enabled, Outgoing;
    MessageSentEffect(c1, true);
    c2 := Step(c1, MessageSent(true));
  }

  lemma WriteInFlight(c: Conn)
    requires Inv(c) && c.open && c.queue != []
    ensures c.writeOp != WriteIdle && AllValid(c.queue) && WriteTyped(c.queue, c.writeOp)
    ensures c.writeOp.sent <= |Outgoing(c.queue, c.writeOp)|
  {
  }

  lemma SendRest(c: Conn, k: nat) returns (c1: Conn)
    requires Inv(c) && c.open && c.writeOp != WriteIdle && AllValid(c.queue) && WriteTyped(c.queue, c.writeOp)
    requires k == |Outgoing(c.queue, c.writeOp)| - c.writeOp.sent
    ensures Typed(c) && Enabled(c, SendMessage(k)) && c1 == Step(c, SendMessage(k))
    ensures OnlySent(c, c1) && c1.queue == c.queue && c1.writeOp == c.writeOp.(sent := c.writeOp.sent + k)
    ensures Inv(c1) && Enabled(c1, MessageSent(true))
  {
    hide ReaderInv, HandshakeInv, EncodeHeader, SentPayload;
    InvStep(c, SendMessage(k));
    c1 := Step(c, SendMessage(k));
  }

  lemma {:induction false} DrainQueue(n0: Net, n: Net, owner: Owner, challenge: nat) returns (n': Net)
    requires challenge < TWO64 && Continues(n0, n) && NetInv(n, challenge) && Ready(n.End(owner))
    ensures Continues(n0, n') && NetInv(n', challenge)
    ensures n'.End(Other(owner)) == n.End(Other(owner))
    ensures OnlySent(n.End(owner), n'.End(owner)) && n'.End(owner).queue == []
    decreases |n.End(owner).queue|, if n.End(owner).writeOp.WritingHeader? then 1 else 0
  {
    hide Continues, NetInv, Inv, SentInv, Typed, Enabled, Step;
    var c := n.End(owner);
    if c.queue == [] {
      n' := n;
    } else {
      EndInv(n, owner, challenge);
      var k, c1, c2 := FinishOperation(c);
      ContinuesAt(n0, n, owner, SendMessage(k), c1, challenge);
      ContinuesAt(n0, n.With(owner, c1), owner, MessageSent(true), c2, challenge);
      n' := DrainQueue(n0, n.With(owner, c2), owner, challenge);
    }
  }

  // ---------------------------------------------------------------- the pipe is read out

  predicate OnlyReceived(c: Conn, c': Conn) {
    c' == c.(receivedBytes := c'.receivedBytes, reader := c'.reader)
  }

  /** The outstanding read can take the next bytes, as far as it waits for them. */
  lemma TakeNext(c: Conn, sent: seq<byte>) returns (bytes: seq<byte>, c': Conn)
    requires Inv(c) && c.readOp == ReadingMessage && c.receivedBytes < sent
    ensures Typed(c) && Enabled(c, Receive(bytes)) && c' == Step(c, Receive(bytes)) && OnlyReceived(c, c')
    ensures |c.receivedBytes| < |c'.receivedBytes| && c'.receivedBytes == c.receivedBytes + bytes <= sent
  {
    ReaderReady(c);
    hide Inv, Typed, Step, Enabled, Reader.Need, Reader.Valid;
    bytes := NextPiece(c.receivedBytes, sent, c.reader.Need());
    MessageBytes(c, bytes);
    c' := Step(c, Receive(bytes));
  }

  lemma NextPiece(received: seq<byte>, sent: seq<byte>, need: nat) returns (piece: seq<byte>)
    requires received < sent && need > 0
    ensures 0 < |piece| <= need && received + piece <= sent
  {
    var at := |received|;
    piece := sent[at..at + if need <= |sent| - at then need else |sent| - at];
  }

  lemma ReaderReady(c: Conn)
    requires Inv(c)
    ensures c.reader.Valid() && c.reader.Need() > 0
  {
  }

  lemma {:induction false} DrainPipe(n0: Net, n: Net, owner: Owner, challenge: nat) returns (n': Net)
    requires challenge < TWO64 && Continues(n0, n) && NetInv(n, challenge) && n.End(owner).readOp == ReadingMessage
    ensures Continues(n0, n') && NetInv(n', challenge)
    ensures n'.End(Other(owner)) == n.End(Other(owner))
    ensures OnlyReceived(n.End(owner), n'.End(owner))
    ensures n'.End(owner).receivedBytes == n.End(Other(owner)).sentBytes
    decreases |n.End(Other(owner)).sentBytes| - |n.End(owner).receivedBytes|
  {
    hide Continues, NetInv, Inv, SentInv, Typed, Enabled, Step;
    EndInv(n, owner, challenge);
    var c, peer := n.End(owner), n.End(Other(owner));
    if c.receivedBytes == peer.sentBytes {
      n' := n;
    } else {
      var bytes, c' := TakeNext(c, peer.sentBytes);
      ContinuesAt(n0, n, owner, Receive(bytes), c', challenge);
      n' := DrainPipe(n0, n.With(owner, c'), owner, challenge);
    }
  }

  // ---------------------------------------------------------------- both directions

  /** Everything posted at either end is in the queue of received messages at the other. */
  predicate AllDelivered(n: Net) {
    Views(n.client.reader.out) == Views(n.server.posted) && Views(n.server.reader.out) == Views(n.client.posted)
  }

  lemma NothingLeftToDeliver(n: Net, challenge: nat)
    requires challenge < TWO64 && NetInv(n, challenge) && n.server.queue == [] && n.client.queue == []
    requires n.client.receivedBytes == n.server.sentBytes && n.server.receivedBytes == n.client.sentBytes
    ensures AllDelivered(n)
  {
    hide Inv, SentInv, Views;
    Delivered(n.server, n.client);
    Delivered(n.client, n.server);
  }

  /** The handshake is over and neither end was closed. */
  predicate HandshakeOver(n: Net) {
    Ready(n.server) && Ready(n.client)
  }

  /** Both queues are written out, then both pipes read out. */
  lemma DrainBoth(n: Net, challenge: nat) returns (n': Net)
    requires challenge < TWO64 && NetInv(n, challenge) && HandshakeOver(n)
    ensures Continues(n, n') && AllDelivered(n')
    ensures n'.server.posted == n.server.posted && n'.client.posted == n.client.posted
  {
    ContinuesNowhere(n);
    hide Continues, NetInv, AllDelivered, NetReaches;
    var n1 := DrainQueue(n, n, Server, challenge);
    var n2 := DrainQueue(n, n1, Client, challenge);
    var n3 := DrainPipe(n, n2, Client, challenge);
    n' := DrainPipe(n, n3, Server, challenge);
    NothingLeftToDeliver(n', challenge);
  }

  /**
   * From every reachable state with both ends open and the handshake over, some continuation in
   * which nothing new is posted delivers every message posted so far, in both directions.
   */
  lemma AllCanBeDelivered(challenge: nat, n: Net)
    requires challenge < TWO64 && NetReaches(challenge, n, true) && HandshakeOver(n)
    ensures exists n' :: Continues(n, n') && AllDelivered(n')
                         && n'.server.posted == n.server.posted && n'.client.posted == n.client.posted
  {
    ReachedInv(challenge, n);
    hide Continues, NetInv, AllDelivered, NetReaches;
    var n' := DrainBoth(n, challenge);
  }
}

/**
 * Two ends joined by two FIFO byte pipes, from the first handshake byte on. A pipe is what one
 * end has sent beyond what the other has received.
 */
module EndToEnd {
  import opened Arith
  import opened Messages
  import opened Framing
  import opened HandshakeWords
  import opened Connections
  import opened Wrappers

  datatype Net = Net(server: Conn, client: Conn) {
    function End(owner: Owner): Conn {
      if owner.Server? then server else client
    }

    function With(owner: Owner, c: Conn): Net {
      if owner.Server? then this.(server := c) else this.(client := c)
    }
  }

  function Other(owner: Owner): Owner {
    if owner.Server? then Client else Server
  }

  /** An event at one of the ends. */
  datatype NetEvent = At(owner: Owner, e: Event)

  function Initial(challenge: nat): Net
    requires challenge < TWO64
  {
    Net(Fresh(Server, challenge), Fresh(Client, challenge))
  }

  /** Bytes can only arrive that were sent and have not arrived yet, in order. */
  predicate EndEnabled(c: Conn, peer: Conn, e: Event) {
    && Typed(c) && Enabled(c, e)
    && (e.Receive? ==> c.receivedBytes + e.bytes <= peer.sentBytes)
  }

  predicate NetEnabled(n: Net, ne: NetEvent) {
    EndEnabled(n.End(ne.owner), n.End(Other(ne.owner)), ne.e)
  }

  function NetStep(n: Net, ne: NetEvent): Net
    requires NetEnabled(n, ne)
  {
    n.With(ne.owner, Step(n.End(ne.owner), ne.e))
  }

  /** All bytes of the end's own handshake word have left. */
  predicate WordOut(c: Conn) {
    c.answered || c.validationWrite == Some(HANDSHAKE_BYTES)
  }

  /**
   * The premise: messages are well-formed and may be posted at any time, but no byte of a message
   * leaves before the last byte of the end's handshake word has left.
   */
  predicate GatedEnd(c: Conn, e: Event) {
    match e
    case Post(m) => WellFormed(m)
    case SendMessage(k) => k > 0 ==> WordOut(c)
    case _ => true
  }

  predicate Gated(n: Net, ne: NetEvent) {
    GatedEnd(n.End(ne.owner), ne.e)
  }

  predicate CanRunNet(n: Net, es: seq<NetEvent>)
    decreases |es|
  {
    es != [] ==> NetEnabled(n, es[0]) && CanRunNet(NetStep(n, es[0]), es[1..])
  }

  predicate GatedRun(n: Net, es: seq<NetEvent>)
    requires CanRunNet(n, es)
    decreases |es|
  {
    es != [] ==> Gated(n, es[0]) && GatedRun(NetStep(n, es[0]), es[1..])
  }

  function RunNet(n: Net, es: seq<NetEvent>): Net
    requires CanRunNet(n, es)
    decreases |es|
  {
    if es == [] then n else RunNet(NetStep(n, es[0]), es[1..])
  }

  // ---------------------------------------------------------------- what an end sends

  /** How far the write in flight has got in the wire form of the front message. */
  function Position(op: WriteOp): nat
    requires op != WriteIdle
  {
    if op.WritingHeader? then op.sent else HEADER_BYTES + op.sent
  }

  /** What is still to be sent of the messages in the queue. */
  function Rest(queue: seq<Message>, op: WriteOp): seq<byte>
    requires (forall i :: 0 <= i < |queue| ==> queue[i].Valid()) && WriteTyped(queue, op)
  {
    if op == WriteIdle then [] else Wire(queue[0])[Position(op)..] + WireAll(queue[1..])
  }

  lemma RestAfterSend(queue: seq<Message>, op: WriteOp, k: nat)
    requires AllValid(queue) && WriteTyped(queue, op) && op != WriteIdle && op.sent + k <= |Outgoing(queue, op)|
    ensures WriteTyped(queue, op.(sent := op.sent + k))
    ensures Rest(queue, op) == Outgoing(queue, op)[op.sent..op.sent + k] + Rest(queue, op.(sent := op.sent + k))
  {
    WirePiece(queue, op, k);
    RestIs(queue, op);
    RestIs(queue, op.(sent := op.sent + k));
    hide *;
    Cut(Wire(queue[0]), Position(op), Position(op.(sent := op.sent + k)),
        Outgoing(queue, op)[op.sent..op.sent + k], WireAll(queue[1..]));
  }

  lemma RestIs(queue: seq<Message>, op: WriteOp)
    requires AllValid(queue) && WriteTyped(queue, op) && op != WriteIdle
    ensures Position(op) <= |Wire(queue[0])|
    ensures Rest(queue, op) == Wire(queue[0])[Position(op)..] + WireAll(queue[1..])
  {
    hide Wire, WireAll;
  }

  /** What leaves next is a piece of the front message's wire form. */
  lemma WirePiece(queue: seq<Message>, op: WriteOp, k: nat)
    requires AllValid(queue) && WriteTyped(queue, op) && op != WriteIdle && op.sent + k <= |Outgoing(queue, op)|
    ensures var op' := op.(sent := op.sent + k);
            && WriteTyped(queue, op') && Position(op) <= Position(op') <= |Wire(queue[0])|
            && Wire(queue[0])[Position(op)..Position(op')] == Outgoing(queue, op)[op.sent..op.sent + k]
  {
    hide EncodeHeader, SentPayload;
  }

  lemma Cut(x: seq<byte>, from: nat, to: nat, piece: seq<byte>, tail: seq<byte>)
    requires from <= to <= |x| && x[from..to] == piece
    ensures x[from..] + tail == piece + (x[to..] + tail)
  {
  }

  lemma RestAfterPost(queue: seq<Message>, op: WriteOp, m: Message)
    requires AllValid(queue) && WriteTyped(queue, op) && op != WriteIdle && m.Valid()
    ensures WriteTyped(queue + [m], op) && Rest(queue + [m], op) == Rest(queue, op) + Wire(m)
  {
    hide Wire, WireAll;
    assert (queue + [m])[0] == queue[0] && (queue + [m])[1..] == queue[1..] + [m];
    WireAllAppend(queue[1..], [m]);
    WireAllOne(m);
    Regroup(Wire(queue[0])[Position(op)..], WireAll(queue[1..]), Wire(m));
  }

  lemma Regroup(x: seq<byte>, y: seq<byte>, z: seq<byte>)
    ensures x + (y + z) == x + y + z
  {
  }

  /** The header write of a fresh front message. */
  lemma RestFromFront(queue: seq<Message>)
    requires AllValid(queue) && queue != []
    ensures Rest(queue, WritingHeader(0)) == WireAll(queue)
  {
    assert Wire(queue[0])[0..] == Wire(queue[0]);
  }

  /** A wholly sent front message leaves the wire form of the others. */
  lemma RestOfOthers(queue: seq<Message>, op: WriteOp)
    requires AllValid(queue) && WriteTyped(queue, op) && op != WriteIdle && op.sent == |Outgoing(queue, op)|
    ensures Rest(queue, op) ==
            if op.WritingHeader? && queue[0].count > 0 then Rest(queue, WritingPayload(0)) else WireAll(queue[1..])
  {
    assert |Wire(queue[0])| == HEADER_BYTES + queue[0].count;
  }

  /** The part of the sent bytes that belongs to the handshake word. */
  function WordPart(sent: seq<byte>): (word: seq<byte>)
    ensures |word| <= HANDSHAKE_BYTES && word <= sent
  {
    if |sent| <= HANDSHAKE_BYTES then sent else sent[..HANDSHAKE_BYTES]
  }

  /** The part that belongs to messages. */
  function MessagePart(sent: seq<byte>): seq<byte> {
    if |sent| <= HANDSHAKE_BYTES then [] else sent[HANDSHAKE_BYTES..]
  }

  /** The handshake word leaves first: nothing before it is known, then it, byte by byte. */
  ghost predicate WordInv(c: Conn)
    requires Typed(c)
  {
    && WordPart(c.sentBytes) <= LE64(c.handshakeOut)
    && (c.validationWrite.Some? ==> c.validationWrite.value == |WordPart(c.sentBytes)|)
    && (c.answered ==> |c.sentBytes| >= HANDSHAKE_BYTES)
    && (!c.started || (c.owner.Client? && |c.receivedBytes| < HANDSHAKE_BYTES) ==> c.sentBytes == [])
  }

  /** After it the wire form of the posted messages, as far as sent. */
  ghost predicate StreamInv(posted: seq<Message>, queue: seq<Message>, op: WriteOp, messages: seq<byte>)
    requires AllValid(queue) && WriteTyped(queue, op)
  {
    && AllValid(posted) && AllWellFormed(posted)
    && messages <= WireAll(posted)
    && (op != WriteIdle || queue == [] ==> messages + Rest(queue, op) == WireAll(posted))
    && (messages == [] ==> op == WriteIdle || op == WritingHeader(0))
  }

  ghost predicate SentInv(c: Conn)
    requires Typed(c)
  {
    WordInv(c) && StreamInv(c.posted, c.queue, c.writeOp, MessagePart(c.sentBytes))
  }

  lemma FreshSent(owner: Owner, challenge: nat)
    requires challenge < TWO64
    ensures SentInv(Fresh(owner, challenge))
  {
  }

  lemma WireAllOne(m: Message)
    requires m.Valid()
    ensures WireAll([m]) == Wire(m)
  {
    assert WireAll([m]) == Wire(m) + WireAll([]);
  }

  lemma RestIdle(queue: seq<Message>)
    requires AllValid(queue)
    ensures Rest(queue, WriteIdle) == []
  {
  }

  lemma NothingLeft()
    ensures WireAll([]) == []
  {
  }

  /** A posted message extends what is still to be sent by its wire form. */
  lemma PostStream(posted: seq<Message>, queue: seq<Message>, op: WriteOp, messages: seq<byte>, m: Message)
    requires AllValid(queue) && WriteTyped(queue, op) && StreamInv(posted, queue, op, messages) && WellFormed(m)
    ensures var op' := if queue == [] then WritingHeader(0) else op;
            WriteTyped(queue + [m], op') && StreamInv(posted + [m], queue + [m], op', messages)
  {
    hide Wire, WireAll, Rest;
    WireAllAppend(posted, [m]);
    WireAllOne(m);
    if queue == [] {
      assert queue + [m] == [m];
      RestFromFront([m]);
      if op == WriteIdle { RestIdle(queue); }
    } else if op != WriteIdle {
      RestAfterPost(queue, op, m);
    }
  }

  lemma PostSent(c: Conn, m: Message)
    requires Inv(c) && SentInv(c) && WellFormed(m)
    ensures Enabled(c, Post(m)) && Inv(Step(c, Post(m))) && SentInv(Step(c, Post(m)))
  {
    hide Inv, Step, Enabled, StreamInv;
    TypedOfInv(c);
    PostEffect(c, m);
    PostStream(c.posted, c.queue, c.writeOp, MessagePart(c.sentBytes), m);
    hide MessagePart, WordPart, LE64;
    TypedOfInv(Step(c, Post(m)));
  }

  lemma TypedOfInv(c: Conn)
    requires Inv(c)
    ensures Typed(c)
  {
  }

  lemma SendStream(posted: seq<Message>, queue: seq<Message>, op: WriteOp, messages: seq<byte>, k: nat)
    requires AllValid(queue) && WriteTyped(queue, op) && StreamInv(posted, queue, op, messages)
    requires op != WriteIdle && op.sent + k <= |Outgoing(queue, op)|
    ensures var piece := Outgoing(queue, op)[op.sent..op.sent + k];
            StreamInv(posted, queue, op.(sent := op.sent + k), messages + piece)
  {
    hide Wire, WireAll, Rest, EncodeHeader, SentPayload;
    RestAfterSend(queue, op, k);
    var piece, rest := Outgoing(queue, op)[op.sent..op.sent + k], Rest(queue, op.(sent := op.sent + k));
    hide Outgoing;
    assert messages + (piece + rest) == messages + piece + rest;
  }

  /** Bytes of the front message leave, after the handshake word. */
  lemma SendMessageSent(c: Conn, k: nat)
    requires Inv(c) && SentInv(c) && Enabled(c, SendMessage(k)) && GatedEnd(c, SendMessage(k))
    ensures Typed(Step(c, SendMessage(k))) && SentInv(Step(c, SendMessage(k)))
  {
    hide LE64, StreamInv, ReaderInv, HandshakeInv, EncodeHeader, SentPayload;
    var sent := c.writeOp.sent;
    SendStream(c.posted, c.queue, c.writeOp, MessagePart(c.sentBytes), k);
    var piece := Outgoing(c.queue, c.writeOp)[sent..sent + k];
    hide Outgoing;
    if k == 0 {
      assert c.sentBytes + piece == c.sentBytes;
      assert MessagePart(c.sentBytes) + piece == MessagePart(c.sentBytes);
    } else {
      MessageBytesLeave(c.sentBytes, piece);
      hide MessagePart, WordPart;
    }
  }

  lemma MessageBytesLeave(sent: seq<byte>, piece: seq<byte>)
    requires |sent| >= HANDSHAKE_BYTES
    ensures WordPart(sent + piece) == WordPart(sent) && MessagePart(sent + piece) == MessagePart(sent) + piece
  {
  }

  /** Completing a write does not change what is still to be sent. */
  lemma MessageSentStream(posted: seq<Message>, queue: seq<Message>, op: WriteOp, messages: seq<byte>)
    requires AllValid(queue) && WriteTyped(queue, op) && StreamInv(posted, queue, op, messages)
    requires op != WriteIdle && op.sent == |Outgoing(queue, op)|
    ensures if op.WritingHeader? && queue[0].count > 0 then StreamInv(posted, queue, WritingPayload(0), messages)
            else
              var op' := if |queue| > 1 then WritingHeader(0) else WriteIdle;
              WriteTyped(queue[1..], op') && StreamInv(posted, queue[1..], op', messages)
  {
    hide Wire, WireAll, Rest;
    RestOfOthers(queue, op);
    hide Outgoing;
    if queue[1..] != [] {
      RestFromFront(queue[1..]);
    } else {
      RestIdle(queue[1..]);
      NothingLeft();
    }
  }

  /** After a failed write nothing more is claimed to be on its way. */
  lemma FailedStream(posted: seq<Message>, queue: seq<Message>, op: WriteOp, messages: seq<byte>)
    requires AllValid(queue) && WriteTyped(queue, op) && StreamInv(posted, queue, op, messages) && queue != []
    ensures StreamInv(posted, queue, WriteIdle, messages)
  {
  }

  /** Steps that leave the end's own handshake alone. */
  lemma WordKept(c: Conn, c': Conn)
    requires Typed(c) && Typed(c') && WordInv(c)
    requires c'.owner == c.owner && c'.handshakeOut == c.handshakeOut && c'.sentBytes == c.sentBytes
    requires c'.validationWrite == c.validationWrite && c'.answered == c.answered
    requires (c.started ==> c'.started) && |c.receivedBytes| <= |c'.receivedBytes|
    requires c'.started == c.started || c.sentBytes == []
    ensures WordInv(c')
  {
    hide LE64, WordPart, Typed;
  }

  /** A new front or a new write, with the stream in order, and nothing else. */
  lemma SentSame(c: Conn, c': Conn, queue: seq<Message>, op: WriteOp, open: bool)
    requires Typed(c) && Typed(c') && SentInv(c) && c' == c.(queue := queue, writeOp := op, open := open)
    requires StreamInv(c.posted, queue, op, MessagePart(c.sentBytes))
    ensures SentInv(c')
  {
    hide Typed, WordInv, StreamInv, MessagePart;
    WordKept(c, c');
  }

  lemma MessageSentSent(c: Conn, ok: bool)
    requires Inv(c) && SentInv(c) && Enabled(c, MessageSent(ok))
    ensures Inv(Step(c, MessageSent(ok))) && SentInv(Step(c, MessageSent(ok)))
  {
    TypedOfInv(c);
    OnlyWriteTyped(c, ok);
    MessageSentEffect(c, ok);
    var c' := Step(c, MessageSent(ok));
    TypedOfInv(c');
    var messages := MessagePart(c.sentBytes);
    hide Inv, Step, Enabled, Outgoing, MessagePart, WordInv, StreamInv, Typed, WriteTyped;
    if !ok {
      FailedStream(c.posted, c.queue, c.writeOp, messages);
      hide SentInv;
      SentSame(c, c', c.queue, WriteIdle, false);
    } else {
      MessageSentStream(c.posted, c.queue, c.writeOp, messages);
      hide SentInv;
      if c.writeOp.WritingHeader? && c.queue[0].count > 0 {
        SentSame(c, c', c.queue, WritingPayload(0), c.open);
      } else {
        SentSame(c, c', c.queue[1..], if |c.queue| > 1 then WritingHeader(0) else WriteIdle, c.open);
      }
    }
  }

  lemma OnlyWriteTyped(c: Conn, ok: bool)
    requires Typed(c) && Enabled(c, MessageSent(ok))
    ensures c.writeOp != WriteIdle && AllValid(c.queue) && WriteTyped(c.queue, c.writeOp)
    ensures ok ==> c.writeOp.sent == |Outgoing(c.queue, c.writeOp)|
  {
  }

  lemma ValidationSentSent(c: Conn, ok: bool)
    requires Inv(c) && SentInv(c) && Enabled(c, ValidationSent(ok))
    ensures Inv(Step(c, ValidationSent(ok))) && SentInv(Step(c, ValidationSent(ok)))
  {
    TypedOfInv(c);
    OnlyWholeWord(c, ok);
    hide Inv, Step, Enabled, StreamInv, MessagePart, LE64;
    ValidationSentEffect(c, ok);
    TypedOfInv(Step(c, ValidationSent(ok)));
  }

  lemma OnlyWholeWord(c: Conn, ok: bool)
    requires Inv(c) && Enabled(c, ValidationSent(ok))
    ensures c.started && (ok ==> c.validationWrite == Some(HANDSHAKE_BYTES))
    ensures c.owner.Client? ==> |c.receivedBytes| >= HANDSHAKE_BYTES
  {
  }

  lemma SendValidationSent(c: Conn, k: nat)
    requires Inv(c) && SentInv(c) && Enabled(c, SendValidation(k))
    ensures Typed(Step(c, SendValidation(k))) && SentInv(Step(c, SendValidation(k)))
  {
    hide Feed, LE64, ReaderInv, ChainInv, StreamInv, Outgoing;
    var word, sent := LE64(c.handshakeOut), c.validationWrite.value;
    WordBytesLeave(c.sentBytes, word, sent, k);
    hide MessagePart, WordPart;
  }

  lemma WordBytesLeave(sent: seq<byte>, word: seq<byte>, n: nat, k: nat)
    requires |word| == HANDSHAKE_BYTES && n + k <= HANDSHAKE_BYTES
    requires WordPart(sent) <= word && n == |WordPart(sent)|
    ensures var sent' := sent + word[n..n + k];
            && WordPart(sent') <= word && |WordPart(sent')| == n + k
            && MessagePart(sent') == MessagePart(sent) && |sent'| >= |sent|
  {
    if n == HANDSHAKE_BYTES {
      assert sent + word[n..n + k] == sent;
    } else {
      assert sent + word[n..n + k] == word[..n + k];
    }
  }

  lemma ReceiveSent(c: Conn, bytes: seq<byte>)
    requires Inv(c) && SentInv(c) && Enabled(c, Receive(bytes))
    ensures Inv(Step(c, Receive(bytes))) && SentInv(Step(c, Receive(bytes)))
  {
    TypedOfInv(c);
    WhatArrives(c, bytes);
    InvStep(c, Receive(bytes));
    TypedOfInv(Step(c, Receive(bytes)));
    hide Inv, Step, Enabled, StreamInv, MessagePart, WordInv, Typed;
    if c.readOp.ReadingMessage? {
      MessageBytes(c, bytes);
      WordKept(c, Step(c, Receive(bytes)));
    } else if |c.readOp.got| + |bytes| < HANDSHAKE_BYTES {
      PartialWord(c, bytes);
      WordKept(c, Step(c, Receive(bytes)));
    } else {
      WholeWordSent(c, bytes);
    }
  }

  /** A client's own word begins before anything was sent. */
  lemma WordBegins(c: Conn)
    requires Typed(c) && c.started && |c.receivedBytes| >= HANDSHAKE_BYTES
    requires c.sentBytes == [] && c.validationWrite == Some(0) && !c.answered
    ensures WordInv(c)
  {
  }

  lemma NothingSentYet(c: Conn)
    requires Inv(c) && WordInv(c) && c.owner == Client && c.readOp.ReadingValidation? && |c.receivedBytes| < HANDSHAKE_BYTES
    ensures c.sentBytes == [] && !c.answered
  {
  }

  /** A handshake word that is complete lets a client's own word begin. */
  lemma WholeWordSent(c: Conn, bytes: seq<byte>)
    requires Inv(c) && SentInv(c) && c.started
    requires c.readOp.ReadingValidation? && c.readOp.got == c.receivedBytes && |c.readOp.got| < HANDSHAKE_BYTES
    requires |c.readOp.got| + |bytes| == HANDSHAKE_BYTES
    ensures Typed(c) && Enabled(c, Receive(bytes))
    ensures Inv(Step(c, Receive(bytes))) && SentInv(Step(c, Receive(bytes)))
  {
    if c.owner == Client {
      ClientWordSent(c, bytes);
    } else {
      ServerWordSent(c, bytes);
    }
  }

  lemma ClientWordSent(c: Conn, bytes: seq<byte>)
    requires Inv(c) && SentInv(c) && c.started && c.owner == Client
    requires c.readOp.ReadingValidation? && c.readOp.got == c.receivedBytes && |c.readOp.got| < HANDSHAKE_BYTES
    requires |c.readOp.got| + |bytes| == HANDSHAKE_BYTES
    ensures Typed(c) && Enabled(c, Receive(bytes))
    ensures Inv(Step(c, Receive(bytes))) && SentInv(Step(c, Receive(bytes)))
  {
    RequestEffect(c, bytes);
    NothingSentYet(c);
    var c' := Step(c, Receive(bytes));
    TypedOfInv(c');
    hide Inv, Step, Enabled, Typed, StreamInv, WordInv, MessagePart, FromLE64, EncryptWord;
    WordBegins(c');
  }

  lemma ServerWordSent(c: Conn, bytes: seq<byte>)
    requires Inv(c) && SentInv(c) && c.started && c.owner == Server
    requires c.readOp.ReadingValidation? && |c.readOp.got| + |bytes| == HANDSHAKE_BYTES
    ensures Typed(c) && Enabled(c, Receive(bytes))
    ensures Inv(Step(c, Receive(bytes))) && SentInv(Step(c, Receive(bytes)))
  {
    AnswerEffect(c, bytes);
    var c' := Step(c, Receive(bytes));
    TypedOfInv(c');
    hide Inv, Step, Enabled, Typed, StreamInv, WordInv, MessagePart, FromLE64, EncryptWord;
    WordKept(c, c');
  }

  lemma WhatArrives(c: Conn, bytes: seq<byte>)
    requires Inv(c) && Enabled(c, Receive(bytes))
    ensures c.started && !c.readOp.NoRead?
    ensures c.readOp.ReadingMessage? ==> |bytes| <= c.reader.Need() && |c.receivedBytes| >= HANDSHAKE_BYTES
    ensures c.readOp.ReadingValidation? ==>
              c.readOp.got == c.receivedBytes && |c.readOp.got| < HANDSHAKE_BYTES
              && |c.readOp.got| + |bytes| <= HANDSHAKE_BYTES
  {
    hide Feed, FromLE64, EncryptWord, Reader.Need;
  }

  /** Steps that move no bytes and touch no message. */
  lemma QuietSent(c: Conn, e: Event)
    requires Inv(c) && SentInv(c) && Enabled(c, e) && (e.Start? || e.ReadFailed? || e.Disconnect?)
    ensures Inv(Step(c, e)) && SentInv(Step(c, e))
  {
    hide Feed, LE64, FromLE64, EncryptWord, ReaderInv, Rest, StreamInv, MessagePart, HandshakeBody;
    InvStep(c, e);
  }

  lemma SentStep(c: Conn, e: Event)
    requires Inv(c) && SentInv(c) && Enabled(c, e) && GatedEnd(c, e)
    ensures Inv(Step(c, e)) && SentInv(Step(c, e)) && c.sentBytes <= Step(c, e).sentBytes
  {
    TypedOfInv(c);
    InvStep(c, e);
    StepHistory(c, e);
    hide Inv, Typed, Enabled, Step, SentInv;
    match e
    case SendValidation(k) => SendValidationSent(c, k);
    case ValidationSent(ok) => ValidationSentSent(c, ok);
    case Post(m) => PostSent(c, m);
    case SendMessage(k) => SendMessageSent(c, k);
    case MessageSent(ok) => MessageSentSent(c, ok);
    case Receive(bytes) => ReceiveSent(c, bytes);
    case _ => QuietSent(c, e);
  }

  // ---------------------------------------------------------------- both ends together

  ghost predicate NetInv(n: Net, challenge: nat)
    requires challenge < TWO64
  {
    && Inv(n.server) && Inv(n.client)
    && n.server.owner == Server && n.client.owner == Client
    && n.server.handshakeOut == challenge
    && SentInv(n.server) && SentInv(n.client)
    && n.client.receivedBytes <= n.server.sentBytes
    && n.server.receivedBytes <= n.client.sentBytes
  }

  lemma NetInvStep(n: Net, ne: NetEvent, challenge: nat)
    requires challenge < TWO64 && NetInv(n, challenge) && NetEnabled(n, ne) && Gated(n, ne)
    ensures NetInv(NetStep(n, ne), challenge)
  {
    hide Step, Enabled, Inv, SentInv, GatedEnd;
    SentStep(n.End(ne.owner), ne.e);
    StepHistory(n.End(ne.owner), ne.e);
  }

  lemma {:induction false} NetInvRun(n: Net, es: seq<NetEvent>, challenge: nat)
    requires challenge < TWO64 && NetInv(n, challenge) && CanRunNet(n, es) && GatedRun(n, es)
    ensures NetInv(RunNet(n, es), challenge)
    decreases |es|
  {
    if es != [] {
      NetInvStep(n, es[0], challenge);
      hide NetStep, NetInv, NetEnabled;
      NetInvRun(NetStep(n, es[0]), es[1..], challenge);
    }
  }

  lemma InitialInv(challenge: nat)
    requires challenge < TWO64
    ensures NetInv(Initial(challenge), challenge)
  {
    FreshInv(Server, challenge);
    FreshInv(Client, challenge);
    FreshSent(Server, challenge);
    FreshSent(Client, challenge);
  }

  /** What one end has delivered, when it has received a prefix of what the other has sent. */
  lemma Delivered(from: Conn, to: Conn)
    requires Inv(from) && SentInv(from) && Inv(to) && to.receivedBytes <= from.sentBytes
    ensures Views(to.reader.out) <= Views(from.posted)
    ensures to.receivedBytes == from.sentBytes && from.queue == [] ==> Views(to.reader.out) == Views(from.posted)
  {
    var fed, all := MessagePart(to.receivedBytes), MessagePart(from.sentBytes);
    MessagePartOfPrefix(to.receivedBytes, from.sentBytes);
    FedToReader(to);
    if from.queue == [] {
      NothingToSend(from);
    }
    hide Inv, MessagePart, WordInv, Feed, Rest, Views, WireAll;
    PrefixDelivers(EMPTY_READER, fed, from.posted);
  }

  lemma MessagePartOfPrefix(a: seq<byte>, b: seq<byte>)
    requires a <= b
    ensures MessagePart(a) <= MessagePart(b)
  {
    if |a| > HANDSHAKE_BYTES {
      assert MessagePart(a) == b[HANDSHAKE_BYTES..|a|];
    }
  }

  lemma FedToReader(c: Conn)
    requires Inv(c)
    ensures c.reader == Feed(EMPTY_READER, MessagePart(c.receivedBytes))
  {
    hide Feed;
  }

  /** An empty queue means that everything posted has been sent. */
  lemma NothingToSend(c: Conn)
    requires Inv(c) && SentInv(c) && c.queue == []
    ensures MessagePart(c.sentBytes) == WireAll(c.posted)
  {
    hide WireAll, MessagePart, Feed, ReaderInv, HandshakeInv, WordInv;
    assert c.writeOp == WriteIdle;
    RestIdle(c.queue);
    hide Rest;
    assert MessagePart(c.sentBytes) + [] == MessagePart(c.sentBytes);
  }

  /**
   * End to end, over every gated run and in both directions at once: the messages queued at one
   * end are, in order, a prefix of the messages posted at the other, and all of them once the
   * sender's queue and the pipe are empty.
   */
  lemma DeliveryInOrder(challenge: nat, es: seq<NetEvent>)
    requires challenge < TWO64 && CanRunNet(Initial(challenge), es) && GatedRun(Initial(challenge), es)
    ensures var n := RunNet(Initial(challenge), es);
            && Views(n.client.reader.out) <= Views(n.server.posted)
            && Views(n.server.reader.out) <= Views(n.client.posted)
            && (n.server.queue == [] && n.client.receivedBytes == n.server.sentBytes ==>
                  Views(n.client.reader.out) == Views(n.server.posted))
            && (n.client.queue == [] && n.server.receivedBytes == n.client.sentBytes ==>
                  Views(n.server.reader.out) == Views(n.client.posted))
  {
    InitialInv(challenge);
    NetInvRun(Initial(challenge), es, challenge);
    var n := RunNet(Initial(challenge), es);
    hide Inv, SentInv;
    Delivered(n.server, n.client);
    Delivered(n.client, n.server);
  }

  /**
   * The handshake passes: for every challenge and every gated run, once the server has read the
   * client's answer the client is validated, so the server never closes for a wrong answer.
   */
  lemma HandshakePasses(challenge: nat, es: seq<NetEvent>)
    requires challenge < TWO64 && CanRunNet(Initial(challenge), es) && GatedRun(Initial(challenge), es)
    ensures var n := RunNet(Initial(challenge), es);
            && (|n.server.receivedBytes| >= HANDSHAKE_BYTES ==> n.server.validated == 1)
            && (n.client.answered ==> n.client.handshakeIn == challenge && n.client.handshakeOut == EncryptWord(challenge))
  {
    InitialInv(challenge);
    NetInvRun(Initial(challenge), es, challenge);
    var n := RunNet(Initial(challenge), es);
    hide CanRunNet, GatedRun, RunNet, Inv, SentInv, EncryptWord;
    ClientWord(n, challenge);
    if |n.server.receivedBytes| >= HANDSHAKE_BYTES {
      WordArrives(n.client, n.server);
      ServerWord(n, challenge);
    }
  }

  /** Whatever the client has sent begins the answer to the challenge. */
  lemma ClientWord(n: Net, challenge: nat)
    requires challenge < TWO64 && NetInv(n, challenge)
    ensures n.client.sentBytes != [] || n.client.answered || n.client.validationWrite.Some? ==>
              n.client.handshakeIn == challenge && n.client.handshakeOut == EncryptWord(challenge)
  {
    if n.client.sentBytes != [] || n.client.answered || n.client.validationWrite.Some? {
      ClientHasReceived(n.client);
      WordArrives(n.server, n.client);
    }
  }

  lemma ClientHasReceived(c: Conn)
    requires Inv(c) && SentInv(c) && c.owner == Client
    requires c.sentBytes != [] || c.answered || c.validationWrite.Some?
    ensures |c.receivedBytes| >= HANDSHAKE_BYTES
    ensures c.handshakeIn == FromLE64(c.receivedBytes[..HANDSHAKE_BYTES]) && c.handshakeOut == EncryptWord(c.handshakeIn)
  {
    hide Feed, LE64, FromLE64, EncryptWord, ReaderInv, ChainInv, StreamInv, MessagePart;
  }

  lemma ServerWord(n: Net, challenge: nat)
    requires challenge < TWO64 && NetInv(n, challenge) && |n.server.receivedBytes| >= HANDSHAKE_BYTES
    requires n.client.sentBytes != [] ==> n.client.handshakeOut == EncryptWord(challenge)
    requires FromLE64(n.server.receivedBytes[..HANDSHAKE_BYTES]) == n.client.handshakeOut
    ensures n.server.validated == 1
  {
    hide Feed, LE64, FromLE64, EncryptWord, ReaderInv, ChainInv, SentInv;
  }

  /** The first eight bytes received are the handshake word of the other end. */
  lemma WordArrives(from: Conn, to: Conn)
    requires Inv(from) && SentInv(from)
    requires to.receivedBytes <= from.sentBytes && |to.receivedBytes| >= HANDSHAKE_BYTES
    ensures from.handshakeOut < TWO64 && to.receivedBytes[..HANDSHAKE_BYTES] == LE64(from.handshakeOut)
    ensures FromLE64(to.receivedBytes[..HANDSHAKE_BYTES]) == from.handshakeOut
  {
    hide Feed, LE64, FromLE64, EncryptWord, ReaderInv, ChainInv, HandshakeInv, StreamInv;
    FromLE64OfLE64(from.handshakeOut);
    assert to.receivedBytes[..HANDSHAKE_BYTES] == WordPart(from.sentBytes);
    assert WordPart(from.sentBytes) == LE64(from.handshakeOut);
  }

  // ---------------------------------------------------------------- the premise can be met

  lemma RunNetUnfold(n: Net, es: seq<NetEvent>)
    requires es != [] && CanRunNet(n, es)
    ensures NetEnabled(n, es[0]) && CanRunNet(NetStep(n, es[0]), es[1..])
    ensures RunNet(n, es) == RunNet(NetStep(n, es[0]), es[1..])
    ensures GatedRun(n, es) == (Gated(n, es[0]) && GatedRun(NetStep(n, es[0]), es[1..]))
  {
    hide NetStep, NetEnabled, Gated;
  }

  lemma RunNetFirst(n: Net, ne: NetEvent, es: seq<NetEvent>)
    requires NetEnabled(n, ne) && CanRunNet(NetStep(n, ne), es)
    ensures CanRunNet(n, [ne] + es) && RunNet(n, [ne] + es) == RunNet(NetStep(n, ne), es)
    ensures GatedRun(n, [ne] + es) == (Gated(n, ne) && GatedRun(NetStep(n, ne), es))
  {
    hide NetStep, NetEnabled, Gated;
    assert ([ne] + es)[1..] == es;
  }

  lemma {:induction false} NetExtend(n: Net, es: seq<NetEvent>, ne: NetEvent)
    requires CanRunNet(n, es) && NetEnabled(RunNet(n, es), ne)
    ensures CanRunNet(n, es + [ne]) && RunNet(n, es + [ne]) == NetStep(RunNet(n, es), ne)
    ensures GatedRun(n, es) && Gated(RunNet(n, es), ne) ==> GatedRun(n, es + [ne])
    decreases |es|
  {
    hide NetStep, NetEnabled, Gated;
    if es == [] {
      assert es + [ne] == [ne] + [];
      RunNetFirst(n, ne, []);
    } else {
      RunNetUnfold(n, es);
      hide CanRunNet, RunNet, GatedRun;
      NetExtend(NetStep(n, es[0]), es[1..], ne);
      RunNetFirst(n, es[0], es[1..] + [ne]);
      assert es + [ne] == [es[0]] + (es[1..] + [ne]);
    }
  }

  /** Some run, gated if `gated` is set, leads from the initial state to `n`. */
  ghost predicate NetReaches(challenge: nat, n: Net, gated: bool)
    requires challenge < TWO64
  {
    exists es :: CanRunNet(Initial(challenge), es) && RunNet(Initial(challenge), es) == n
                 && (gated ==> GatedRun(Initial(challenge), es))
  }

  lemma ReachedInv(challenge: nat, n: Net)
    requires challenge < TWO64 && NetReaches(challenge, n, true)
    ensures NetInv(n, challenge)
  {
    var es :| CanRunNet(Initial(challenge), es) && RunNet(Initial(challenge), es) == n && GatedRun(Initial(challenge), es);
    InitialInv(challenge);
    hide NetInv;
    NetInvRun(Initial(challenge), es, challenge);
  }

  lemma ReachesInitial(challenge: nat)
    requires challenge < TWO64
    ensures NetReaches(challenge, Initial(challenge), true) && NetReaches(challenge, Initial(challenge), false)
  {
    var n := Initial(challenge);
    assert CanRunNet(n, []) && RunNet(n, []) == n && GatedRun(n, []);
  }

  lemma NetReachesStep(challenge: nat, n: Net, ne: NetEvent, gated: bool)
    requires challenge < TWO64 && NetReaches(challenge, n, gated) && NetEnabled(n, ne) && (gated ==> Gated(n, ne))
    ensures NetReaches(challenge, NetStep(n, ne), gated)
  {
    var es :| CanRunNet(Initial(challenge), es) && RunNet(Initial(challenge), es) == n
              && (gated ==> GatedRun(Initial(challenge), es));
    NetExtend(Initial(challenge), es, ne);
  }

  /** One step of one end under the premise. */
  lemma NetReachesAt(challenge: nat, n: Net, owner: Owner, e: Event, c: Conn)
    requires challenge < TWO64 && NetReaches(challenge, n, true)
    requires EndEnabled(n.End(owner), n.End(Other(owner)), e)
    requires c == Step(n.End(owner), e) && GatedEnd(n.End(owner), e)
    ensures NetReaches(challenge, n.With(owner, c), true)
  {
    hide NetReaches, Step, EndEnabled, GatedEnd;
    NetReachesStep(challenge, n, At(owner, e), true);
  }

  /** A server that sends its challenge. */
  lemma ServerChallenges(challenge: nat) returns (s1: Conn, s2: Conn, s3: Conn)
    requires challenge < TWO64
    ensures var s0 := Fresh(Server, challenge);
            && Typed(s0) && Enabled(s0, Start) && s1 == Step(s0, Start)
            && Typed(s1) && Enabled(s1, SendValidation(HANDSHAKE_BYTES)) && s2 == Step(s1, SendValidation(HANDSHAKE_BYTES))
            && Typed(s2) && Enabled(s2, ValidationSent(true)) && s3 == Step(s2, ValidationSent(true))
            && s3 == s0.(started := true, answered := true, readOp := ReadingValidation([]), sentBytes := LE64(challenge))
  {
    var s0 := Fresh(Server, challenge);
    hide EncryptWord, FromLE64, LE64, Feed;
    FreshInv(Server, challenge);
    s1 := Step(s0, Start);
    StartKeeps(s0);
    s2 := Step(s1, SendValidation(HANDSHAKE_BYTES));
    SentWhole(LE64(challenge));
    s3 := Step(s2, ValidationSent(true));
  }

  /** A client that receives the challenge and answers it. */
  lemma ClientAnswers(challenge: nat) returns (c1: Conn, c2: Conn, c3: Conn, c4: Conn)
    requires challenge < TWO64
    ensures var c0 := Fresh(Client, challenge);
            && Typed(c0) && Enabled(c0, Start) && c1 == Step(c0, Start) && c1.receivedBytes == []
            && Typed(c1) && Enabled(c1, Receive(LE64(challenge))) && c2 == Step(c1, Receive(LE64(challenge)))
            && Typed(c2) && Enabled(c2, SendValidation(HANDSHAKE_BYTES)) && c3 == Step(c2, SendValidation(HANDSHAKE_BYTES))
            && Typed(c3) && Enabled(c3, ValidationSent(true)) && c4 == Step(c3, ValidationSent(true))
            && c4.answered && c4.readOp == ReadingMessage && c4.sentBytes == LE64(EncryptWord(challenge))
  {
    var c0 := Fresh(Client, challenge);
    var word := LE64(challenge);
    FromLE64OfLE64(challenge);
    hide EncryptWord, FromLE64, LE64, Feed;
    FreshInv(Client, challenge);
    c1 := Step(c0, Start);
    StartKeeps(c0);
    assert [] + word == word;
    ValidationComplete(c1, word);
    c2 := Step(c1, Receive(word));
    c3 := Step(c2, SendValidation(HANDSHAKE_BYTES));
    InvStep(c2, SendValidation(HANDSHAKE_BYTES));
    SentWhole(LE64(EncryptWord(challenge)));
    c4 := Step(c3, ValidationSent(true));
  }

  lemma SentWhole(x: seq<byte>)
    requires |x| == HANDSHAKE_BYTES
    ensures [] + x[0..0 + HANDSHAKE_BYTES] == x
  {
  }

  lemma ServerValidates(challenge: nat, s3: Conn) returns (s4: Conn)
    requires challenge < TWO64
    requires s3 == Fresh(Server, challenge).(started := true, answered := true, readOp := ReadingValidation([]),
                                             sentBytes := LE64(challenge))
    ensures var answer := LE64(EncryptWord(challenge));
            && s3.receivedBytes == []
            && Typed(s3) && Enabled(s3, Receive(answer)) && s4 == Step(s3, Receive(answer))
            && s4.validated == 1 && s4.open && s4.answered && s4.readOp == ReadingMessage
  {
    var answer := LE64(EncryptWord(challenge));
    FromLE64OfLE64(EncryptWord(challenge));
    hide EncryptWord, FromLE64, LE64, Feed;
    assert [] + answer == answer;
    s4 := Step(s3, Receive(answer));
  }

  lemma ReachChallenged(challenge: nat) returns (s: Conn)
    requires challenge < TWO64
    ensures s == Fresh(Server, challenge).(started := true, answered := true, readOp := ReadingValidation([]),
                                           sentBytes := LE64(challenge))
    ensures NetReaches(challenge, Net(s, Fresh(Client, challenge)), true)
  {
    var n0 := Initial(challenge);
    ReachesInitial(challenge);
    var s1, s2, s3 := ServerChallenges(challenge);
    hide EncryptWord, NetReaches, FromLE64, LE64, Fresh, Step, Typed, Enabled;
    NetReachesStep(challenge, n0, At(Server, Start), true);
    NetReachesStep(challenge, Net(s1, n0.client), At(Server, SendValidation(HANDSHAKE_BYTES)), true);
    NetReachesStep(challenge, Net(s2, n0.client), At(Server, ValidationSent(true)), true);
    s := s3;
  }

  /** From there the client can take the challenge and send its answer. */
  lemma ReachAnswered(challenge: nat) returns (s: Conn, c: Conn)
    requires challenge < TWO64
    ensures s == Fresh(Server, challenge).(started := true, answered := true, readOp := ReadingValidation([]),
                                           sentBytes := LE64(challenge))
    ensures NetReaches(challenge, Net(s, c), true)
    ensures c.answered && c.readOp == ReadingMessage && c.sentBytes == LE64(EncryptWord(challenge))
  {
    s := ReachChallenged(challenge);
    var c1, c2, c3, c4 := ClientAnswers(challenge);
    assert s.sentBytes == LE64(challenge) && s.owner == Server;
    hide EncryptWord, NetReaches, FromLE64, LE64, Fresh, Step, Typed, Enabled;
    var word := LE64(challenge);
    assert c1.receivedBytes + word == word;
    NetReachesAt(challenge, Net(s, Fresh(Client, challenge)), Client, Start, c1);
    NetReachesAt(challenge, Net(s, c1), Client, Receive(word), c2);
    NetReachesAt(challenge, Net(s, c2), Client, SendValidation(HANDSHAKE_BYTES), c3);
    NetReachesAt(challenge, Net(s, c3), Client, ValidationSent(true), c4);
    c := c4;
  }

  /** And then the server takes the answer. */
  lemma ReachCompleted(challenge: nat) returns (n: Net)
    requires challenge < TWO64
    ensures NetReaches(challenge, n, true) && n.server.validated == 1
    ensures n.server.answered && n.client.answered
    ensures n.server.readOp == ReadingMessage && n.client.readOp == ReadingMessage
  {
    var s, c := ReachAnswered(challenge);
    var s4 := ServerValidates(challenge, s);
    n := Net(s4, c);
    hide EncryptWord, NetReaches, FromLE64, LE64, Fresh, Step, Typed, Enabled;
    AnswerTaken(challenge, s, c, s4);
  }

  lemma AnswerTaken(challenge: nat, s: Conn, c: Conn, s': Conn)
    requires challenge < TWO64 && NetReaches(challenge, Net(s, c), true)
    requires s.receivedBytes == [] && Typed(s) && Enabled(s, Receive(c.sentBytes)) && s' == Step(s, Receive(c.sentBytes))
    ensures NetReaches(challenge, Net(s', c), true)
  {
    hide NetReaches, Step, Typed, Enabled;
    assert s.receivedBytes + c.sentBytes == c.sentBytes;
    NetReachesStep(challenge, Net(s, c), At(Server, Receive(c.sentBytes)), true);
  }

  /** For every challenge some gated run completes the handshake and leaves both ends reading messages. */
  lemma HandshakeCompletes(challenge: nat)
    requires challenge < TWO64
    ensures exists n :: NetReaches(challenge, n, true) && n.server.validated == 1
                        && n.server.answered && n.client.answered
                        && n.server.readOp == ReadingMessage && n.client.readOp == ReadingMessage
  {
    var n := ReachCompleted(challenge);
  }
}

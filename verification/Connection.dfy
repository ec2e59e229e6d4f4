/**
 * One end of a connection: the handshake, the single chain of message writes fed by a queue,
 * and the reader. A step is one completion handler, one posted `SendData`, or the moment the
 * operating system moves bytes for an outstanding operation.
 */
module Connections {
  import opened Arith
  import opened Messages
  import opened Framing
  import opened HandshakeWords
  import opened Wrappers

  // ---------------------------------------------------------------- the state of one end

  datatype Owner = Server | Client

  /** The message write in flight, with the bytes already sent of it. */
  datatype WriteOp = WriteIdle | WritingHeader(sent: nat) | WritingPayload(sent: nat)

  /** The read in flight: none, the eight handshake bytes, or whatever the reader waits for. */
  datatype ReadOp = NoRead | ReadingValidation(got: seq<byte>) | ReadingMessage

  /**
   * A connection. `validationWrite` is the handshake write in flight, `answered` says that it has
   * completed. `sentBytes`, `receivedBytes` and `posted` are the histories of both directions
   * and of `SendData`. `fault` records what must never happen: a second outstanding read or
   * chain of message writes, or a pop from an empty queue.
   */
  datatype Conn = Conn(owner: Owner, started: bool, open: bool,
                       handshakeOut: nat, handshakeIn: nat, handshakeCheck: nat,
                       validationWrite: Option<nat>, answered: bool, validated: nat,
                       queue: seq<Message>, writeOp: WriteOp, readOp: ReadOp, reader: Reader, fault: bool,
                       sentBytes: seq<byte>, receivedBytes: seq<byte>, posted: seq<Message>)

  /** The memory a connection reads messages into before anything was received. */
  const EMPTY_READER: Reader := Reader(InHeader([]), Message(Header(0, 0), 0, []), [])

  /** A server end with its challenge drawn, or a client end. */
  function Fresh(owner: Owner, challenge: nat): Conn
    requires challenge < TWO64
  {
    Conn(owner, false, true,
         if owner.Server? then challenge else 0, 0, if owner.Server? then EncryptWord(challenge) else 0,
         None, false, 0, [], WriteIdle, NoRead, EMPTY_READER, false, [], [], [])
  }

  /** Words and messages are of the types the program declares. */
  predicate Typed(c: Conn) {
    && c.handshakeOut < TWO64 && c.handshakeIn < TWO64 && c.handshakeCheck < TWO64
    && c.reader.Valid()
    && (forall i :: 0 <= i < |c.queue| ==> c.queue[i].Valid())
    && (c.readOp.ReadingValidation? ==> |c.readOp.got| < HANDSHAKE_BYTES)
    && WriteTyped(c.queue, c.writeOp)
    && (c.validationWrite.Some? ==> c.validationWrite.value <= HANDSHAKE_BYTES)
  }

  /** A message write sends no more than the front message has. */
  predicate WriteTyped(queue: seq<Message>, op: WriteOp) {
    match op
    case WriteIdle => true
    case WritingHeader(sent) => queue != [] && sent <= HEADER_BYTES
    case WritingPayload(sent) => queue != [] && sent <= queue[0].count
  }

  // ---------------------------------------------------------------- handlers

  /** What no handler touches: who the connection is, what was posted, sent and received, the reader; and none reopens it. */
  ghost predicate Steady(c: Conn, c': Conn) {
    && c'.owner == c.owner && c'.started == c.started && c'.handshakeCheck == c.handshakeCheck
    && (c.owner.Server? ==> c'.handshakeOut == c.handshakeOut)
    && c'.posted == c.posted && c'.sentBytes == c.sentBytes && c'.receivedBytes == c.receivedBytes && c'.reader == c.reader
    && (!c.open ==> !c'.open)
  }

  function Close(c: Conn): (c': Conn)
    ensures Steady(c, c')
  {
    c.(open := false)
  }

  function ReadHeader(c: Conn): (c': Conn)
    ensures Steady(c, c')
  {
    if c.readOp != NoRead then c.(fault := true) else c.(readOp := ReadingMessage)
  }

  function ReadValidation(c: Conn): (c': Conn)
    ensures Steady(c, c')
  {
    if c.readOp != NoRead then c.(fault := true) else c.(readOp := ReadingValidation([]))
  }

  function SendValidationData(c: Conn): (c': Conn)
    ensures Steady(c, c')
  {
    if c.validationWrite.Some? then c.(fault := true) else c.(validationWrite := Some(0))
  }

  function WriteHeader(c: Conn): (c': Conn)
    ensures Steady(c, c')
  {
    if c.writeOp != WriteIdle || c.queue == [] then c.(fault := true) else c.(writeOp := WritingHeader(0))
  }

  /** `ConnectToClient` on a server, the completed `async_connect` on a client. */
  function StartStep(c: Conn): (c': Conn)
    ensures Steady(c.(started := true), c')
  {
    var s := c.(started := true);
    match c.owner
    case Server => if c.open then ReadValidation(SendValidationData(s)) else s
    case Client => ReadValidation(s)
  }

  function ValidationWritten(c: Conn, ok: bool): (c': Conn)
    ensures Steady(c, c')
  {
    var s := c.(validationWrite := None);
    if !ok then Close(s)
    else if c.owner.Client? then ReadHeader(s.(answered := true))
    else s.(answered := true)
  }

  /** The eight handshake bytes are complete. */
  function ValidationRead(c: Conn, bytes: seq<byte>): (c': Conn)
    requires Typed(c) && |bytes| == HANDSHAKE_BYTES
    ensures Steady(c, c')
  {
    var s := c.(readOp := NoRead, handshakeIn := FromLE64(bytes));
    match c.owner
    case Client => SendValidationData(s.(handshakeOut := EncryptWord(s.handshakeIn)))
    case Server =>
      if s.handshakeIn == s.handshakeCheck then ReadHeader(s.(validated := s.validated + 1)) else Close(s)
  }

  /** The lambda that `SendData` posts. */
  function PostStep(c: Conn, m: Message): (c': Conn)
    ensures Steady(c.(posted := c.posted + [m]), c')
  {
    var s := c.(queue := c.queue + [m], posted := c.posted + [m]);
    if c.queue == [] then WriteHeader(s) else s
  }

  /** The front message is out: pop it and go on with the next one, if any. */
  function NextMessage(c: Conn): (c': Conn)
    ensures Steady(c, c')
  {
    if c.queue == [] then c.(fault := true)
    else
      var s := c.(queue := c.queue[1..], writeOp := WriteIdle);
      if s.queue == [] then s else WriteHeader(s)
  }

  function MessageWritten(c: Conn, ok: bool): (c': Conn)
    ensures Steady(c, c')
  {
    if !ok then Close(c.(writeOp := WriteIdle))
    else if c.queue == [] then c.(fault := true)
    else if c.writeOp.WritingHeader? && c.queue[0].count > 0 then c.(writeOp := WritingPayload(0))
    else NextMessage(c)
  }

  // ---------------------------------------------------------------- steps

  datatype Event =
    | Start                              // server accepted, or client connected
    | SendValidation(k: nat)             // handshake bytes leave
    | ValidationSent(ok: bool)           // handshake write completes
    | Post(m: Message)                   // a posted SendData runs
    | SendMessage(k: nat)                // header or payload bytes leave
    | MessageSent(ok: bool)              // header or payload write completes
    | Receive(bytes: seq<byte>)          // bytes arrive for the outstanding read
    | ReadFailed                         // the outstanding read fails
    | Disconnect                         // a posted Disconnect runs

  /** The bytes of the message write in flight. */
  function Outgoing(queue: seq<Message>, op: WriteOp): seq<byte>
    requires (forall i :: 0 <= i < |queue| ==> queue[i].Valid()) && WriteTyped(queue, op)
  {
    match op
    case WriteIdle => []
    case WritingHeader(_) => assert queue[0].Valid(); EncodeHeader(queue[0].header)
    case WritingPayload(_) => assert queue[0].Valid(); SentPayload(queue[0])
  }

  /** The most bytes the outstanding read takes. */
  function Wanted(c: Conn): nat
    requires Typed(c)
  {
    match c.readOp
    case NoRead => 0
    case ReadingValidation(got) => HANDSHAKE_BYTES - |got|
    case ReadingMessage => c.reader.Need()
  }

  /**
   * What can happen. Bytes leave an open socket only; a read that completed before its socket was
   * closed may still run its handler after it, so bytes and handler come together in `Receive`.
   */
  predicate Enabled(c: Conn, e: Event)
    requires Typed(c)
  {
    match e
    case Start => !c.started
    case SendValidation(k) => c.open && c.validationWrite.Some? && c.validationWrite.value + k <= HANDSHAKE_BYTES
    case ValidationSent(ok) => c.validationWrite.Some? && (ok ==> c.validationWrite.value == HANDSHAKE_BYTES)
    case Post(m) => m.Valid()
    case SendMessage(k) => c.open && c.writeOp != WriteIdle && c.writeOp.sent + k <= |Outgoing(c.queue, c.writeOp)|
    case MessageSent(ok) => c.writeOp != WriteIdle && (ok ==> c.writeOp.sent == |Outgoing(c.queue, c.writeOp)|)
    case Receive(bytes) => c.readOp != NoRead && |bytes| <= Wanted(c)
    case ReadFailed => c.readOp != NoRead
    case Disconnect => true
  }

  function SendMessageStep(c: Conn, k: nat): Conn
    requires Typed(c) && Enabled(c, SendMessage(k))
  {
    var sent := c.writeOp.sent;
    c.(sentBytes := c.sentBytes + Outgoing(c.queue, c.writeOp)[sent..sent + k],
       writeOp := c.writeOp.(sent := sent + k))
  }

  function SendValidationStep(c: Conn, k: nat): Conn
    requires Typed(c) && Enabled(c, SendValidation(k))
  {
    var sent := c.validationWrite.value;
    c.(sentBytes := c.sentBytes + LE64(c.handshakeOut)[sent..sent + k], validationWrite := Some(sent + k))
  }

  function ReceiveStep(c: Conn, bytes: seq<byte>): (c': Conn)
    requires Typed(c) && Enabled(c, Receive(bytes))
    ensures Steady(c.(receivedBytes := c.receivedBytes + bytes,
                      reader := if c.readOp.ReadingMessage? then Feed(c.reader, bytes) else c.reader), c')
  {
    var s := c.(receivedBytes := c.receivedBytes + bytes);
    if c.readOp.ReadingMessage? then s.(reader := Feed(c.reader, bytes))
    else if |c.readOp.got| + |bytes| < HANDSHAKE_BYTES then s.(readOp := ReadingValidation(c.readOp.got + bytes))
    else ValidationRead(s, c.readOp.got + bytes)
  }

  function Step(c: Conn, e: Event): Conn
    requires Typed(c) && Enabled(c, e)
  {
    match e
    case Start => StartStep(c)
    case SendValidation(k) => SendValidationStep(c, k)
    case ValidationSent(ok) => ValidationWritten(c, ok)
    case Post(m) => PostStep(c, m)
    case SendMessage(k) => SendMessageStep(c, k)
    case MessageSent(ok) => MessageWritten(c, ok)
    case Receive(bytes) => ReceiveStep(c, bytes)
    case ReadFailed => Close(c.(readOp := NoRead))
    case Disconnect => Close(c)
  }

  // ---------------------------------------------------------------- what every step keeps

  /** One chain of message writes, running exactly while there is something to send on an open socket. */
  ghost predicate ChainInv(open: bool, queue: seq<Message>, op: WriteOp) {
    && (op != WriteIdle ==> queue != [])
    && (open && queue != [] ==> op != WriteIdle)
    && (op.WritingPayload? ==> queue[0].count > 0)
  }

  /** The handshake comes first, once, and its outcome follows from the first eight bytes received. */
  ghost predicate HandshakeInv(c: Conn)
    requires Typed(c)
  {
    var rx := c.receivedBytes;
    && (!c.started ==> rx == [] && c.readOp == NoRead && c.validationWrite.None? && !c.answered)
    && (c.readOp.ReadingValidation? ==> c.readOp.got == rx)
    && (c.readOp.ReadingMessage? ==> |rx| >= HANDSHAKE_BYTES)
    && (c.answered ==> c.validationWrite.None?)
    && HandshakeBody(c)
  }

  ghost predicate HandshakeBody(c: Conn)
    requires Typed(c)
  {
    var rx := c.receivedBytes;
    match c.owner
       case Server =>
         && c.handshakeCheck == EncryptWord(c.handshakeOut)
         && c.validated == (if |rx| >= HANDSHAKE_BYTES && FromLE64(rx[..HANDSHAKE_BYTES]) == c.handshakeCheck then 1 else 0)
         && (c.readOp.ReadingMessage? ==> c.validated == 1)
         && (|rx| > HANDSHAKE_BYTES ==> c.validated == 1)
       case Client =>
         && c.validated == 0
         && (c.readOp.ReadingValidation? ==> c.validationWrite.None? && !c.answered)
         && (c.validationWrite.Some? || c.answered ==> |rx| >= HANDSHAKE_BYTES)
         && (|rx| >= HANDSHAKE_BYTES ==>
               c.handshakeOut == EncryptWord(c.handshakeIn) && c.handshakeIn == FromLE64(rx[..HANDSHAKE_BYTES]))
         && (c.validationWrite.Some? ==> c.readOp == NoRead)
         && (c.readOp.ReadingMessage? ==> c.answered)
         && (|rx| > HANDSHAKE_BYTES ==> c.answered)
  }

  /** The reader is where the bytes after the handshake have brought it. */
  ghost predicate ReaderInv(reader: Reader, rx: seq<byte>) {
    reader == Feed(EMPTY_READER, if |rx| > HANDSHAKE_BYTES then rx[HANDSHAKE_BYTES..] else [])
  }

  ghost predicate Inv(c: Conn) {
    && !c.fault && Typed(c)
    && ChainInv(c.open, c.queue, c.writeOp) && HandshakeInv(c) && ReaderInv(c.reader, c.receivedBytes)
  }

  lemma FreshInv(owner: Owner, challenge: nat)
    requires challenge < TWO64
    ensures Inv(Fresh(owner, challenge))
  {
  }

  lemma StartKeeps(c: Conn)
    requires Inv(c) && !c.started
    ensures Inv(StartStep(c))
  {
    hide Feed, FromLE64, EncryptWord, EncodeHeader, SentPayload, LE64;
  }

  lemma ValidationSentKeeps(c: Conn, ok: bool)
    requires Inv(c) && Enabled(c, ValidationSent(ok))
    ensures Inv(ValidationWritten(c, ok))
  {
    hide Feed, FromLE64, EncryptWord, EncodeHeader, SentPayload, LE64;
  }

  lemma PostQueues(c: Conn, m: Message)
    requires ChainInv(c.open, c.queue, c.writeOp)
    ensures PostStep(c, m) ==
            c.(queue := c.queue + [m], posted := c.posted + [m],
               writeOp := if c.queue == [] then WritingHeader(0) else c.writeOp)
  {
  }

  lemma PostKeeps(c: Conn, m: Message)
    requires Inv(c) && m.Valid()
    ensures Inv(PostStep(c, m))
  {
    PostQueues(c, m);
    hide PostStep, Feed, FromLE64, EncryptWord, ReaderInv, Reader.Valid;
  }

  lemma MessageSentKeeps(c: Conn, ok: bool)
    requires Inv(c) && Enabled(c, MessageSent(ok))
    ensures Inv(MessageWritten(c, ok))
  {
    hide Feed, FromLE64, EncryptWord, EncodeHeader, SentPayload, LE64;
    if ok && !(c.writeOp.WritingHeader? && c.queue[0].count > 0) {
      hide MessageWritten;
      NextMessageKeeps(c);
      MessageWrittenNext(c);
    }
  }

  lemma MessageWrittenNext(c: Conn)
    requires c.queue != [] && !(c.writeOp.WritingHeader? && c.queue[0].count > 0)
    ensures MessageWritten(c, true) == NextMessage(c)
  {
    hide NextMessage;
  }

  lemma NextMessageKeeps(c: Conn)
    requires Inv(c) && c.writeOp != WriteIdle
    ensures Inv(NextMessage(c))
  {
    hide ReaderInv, FromLE64, EncryptWord, EncodeHeader, SentPayload, LE64;
  }

  lemma ReceiveMessageKeeps(c: Conn, bytes: seq<byte>)
    requires Inv(c) && Enabled(c, Receive(bytes)) && c.readOp.ReadingMessage?
    ensures Inv(ReceiveStep(c, bytes))
  {
    hide Feed, FromLE64, EncryptWord;
    var rx := c.receivedBytes;
    FeedAppend(EMPTY_READER, rx[HANDSHAKE_BYTES..], bytes);
    assert (rx + bytes)[HANDSHAKE_BYTES..] == rx[HANDSHAKE_BYTES..] + bytes;
    assert (rx + bytes)[..HANDSHAKE_BYTES] == rx[..HANDSHAKE_BYTES];
    assert rx[HANDSHAKE_BYTES..] == if |rx| > HANDSHAKE_BYTES then rx[HANDSHAKE_BYTES..] else [];
    if |rx + bytes| <= HANDSHAKE_BYTES {
      assert (rx + bytes)[HANDSHAKE_BYTES..] == [];
    }
  }

  lemma ReceiveValidationKeeps(c: Conn, bytes: seq<byte>)
    requires Inv(c) && Enabled(c, Receive(bytes)) && c.readOp.ReadingValidation?
    ensures Inv(ReceiveStep(c, bytes))
  {
    hide Feed, FromLE64, EncryptWord;
    var rx := c.receivedBytes + bytes;
    assert c.readOp.got + bytes == rx;
    if |rx| == HANDSHAKE_BYTES {
      assert rx[..HANDSHAKE_BYTES] == rx;
    }
  }

  /** Every step of either end, whatever the peer sends, keeps the invariant; no step faults. */
  lemma InvStep(c: Conn, e: Event)
    requires Inv(c) && Enabled(c, e)
    ensures Inv(Step(c, e))
  {
    hide Feed, FromLE64, EncryptWord, EncodeHeader, SentPayload, LE64;
    match e
    case Start => StartKeeps(c);
    case SendValidation(k) =>
    case ValidationSent(ok) => ValidationSentKeeps(c, ok);
    case Post(m) => PostKeeps(c, m);
    case SendMessage(k) =>
    case MessageSent(ok) => MessageSentKeeps(c, ok);
    case Receive(bytes) =>
      if c.readOp.ReadingMessage? {
        ReceiveMessageKeeps(c, bytes);
      } else {
        ReceiveValidationKeeps(c, bytes);
      }
    case ReadFailed =>
    case Disconnect =>
  }

  /** What any step does to the identity and the histories of a connection. */
  lemma StepHistory(c: Conn, e: Event)
    requires Typed(c) && Enabled(c, e)
    ensures var c' := Step(c, e);
            && c'.owner == c.owner && c'.handshakeCheck == c.handshakeCheck
            && c'.started == (c.started || e == Start)
            && (c.owner.Server? ==> c'.handshakeOut == c.handshakeOut)
            && c'.receivedBytes == c.receivedBytes + (if e.Receive? then e.bytes else [])
            && c.sentBytes <= c'.sentBytes && c'.posted == c.posted + (if e.Post? then [e.m] else [])
            && (c'.reader == c.reader || (e.Receive? && c'.reader == Feed(c.reader, e.bytes)))
  {
    hide Typed, Outgoing, Feed, LE64, Close, StartStep, ValidationWritten, PostStep, MessageWritten, ReceiveStep;
    assert e.SendMessage? ==> c.writeOp != WriteIdle;
    hide Enabled, WriteHeader;
  }

  /** A closed connection stays closed, and no byte leaves it any more. */
  lemma ClosedIsSilent(c: Conn, e: Event)
    requires Typed(c) && Enabled(c, e) && !c.open
    ensures !Step(c, e).open && Step(c, e).sentBytes == c.sentBytes
  {
    hide Typed, Outgoing, Feed, LE64, StartStep, ValidationWritten, PostStep, MessageWritten, ReceiveStep;
    assert !e.SendValidation? && !e.SendMessage?;
    hide Enabled;
  }

  /** A start: both ends wait for the other's handshake word, and an open server sends its own. */
  lemma StartEffect(c: Conn)
    requires Inv(c) && !c.started
    ensures Step(c, Start) ==
            if c.owner.Client? then c.(started := true, readOp := ReadingValidation([]))
            else if c.open then c.(started := true, readOp := ReadingValidation([]), validationWrite := Some(0))
            else c.(started := true)
  {
    hide Feed, LE64, FromLE64, EncryptWord, ReaderInv, ChainInv;
  }

  /** A post: the message is queued, and an empty queue's chain primed. */
  lemma PostEffect(c: Conn, m: Message)
    requires Inv(c) && m.Valid()
    ensures Enabled(c, Post(m)) && Inv(Step(c, Post(m)))
    ensures Step(c, Post(m)) ==
            c.(queue := c.queue + [m], posted := c.posted + [m],
               writeOp := if c.queue == [] then WritingHeader(0) else c.writeOp)
  {
    PostQueues(c, m);
    PostKeeps(c, m);
    hide Inv, PostStep;
  }

  /** A completed message write: the payload comes next, or the front is popped and the next header comes. */
  lemma MessageSentEffect(c: Conn, ok: bool)
    requires Inv(c) && Enabled(c, MessageSent(ok))
    ensures c.queue != [] && Inv(Step(c, MessageSent(ok)))
    ensures Step(c, MessageSent(ok)) ==
            if !ok then c.(writeOp := WriteIdle, open := false)
            else if c.writeOp.WritingHeader? && c.queue[0].count > 0 then c.(writeOp := WritingPayload(0))
            else c.(queue := c.queue[1..], writeOp := if |c.queue| > 1 then WritingHeader(0) else WriteIdle)
  {
    hide Feed, FromLE64, EncryptWord, EncodeHeader, SentPayload, LE64, ReaderInv, HandshakeInv;
    MessageSentKeeps(c, ok);
  }

  /** The completed handshake write. */
  lemma ValidationSentEffect(c: Conn, ok: bool)
    requires Inv(c) && Enabled(c, ValidationSent(ok))
    ensures Inv(Step(c, ValidationSent(ok)))
    ensures Step(c, ValidationSent(ok)) ==
            var s := c.(validationWrite := None);
            if !ok then s.(open := false)
            else if c.owner.Client? then s.(answered := true, readOp := ReadingMessage)
            else s.(answered := true)
  {
    hide Feed, FromLE64, EncryptWord, EncodeHeader, SentPayload, LE64, ReaderInv, ChainInv;
    ValidationSentKeeps(c, ok);
  }

  /** The handshake word is complete: the client answers, the server compares. */
  lemma ValidationComplete(c: Conn, bytes: seq<byte>)
    requires Inv(c) && c.readOp.ReadingValidation? && |c.readOp.got| + |bytes| == HANDSHAKE_BYTES
    ensures Typed(c) && Enabled(c, Receive(bytes)) && Inv(Step(c, Receive(bytes)))
    ensures var word := FromLE64(c.readOp.got + bytes);
            var s := c.(receivedBytes := c.receivedBytes + bytes, readOp := NoRead, handshakeIn := word);
            Step(c, Receive(bytes)) ==
              if c.owner.Client? then s.(handshakeOut := EncryptWord(word), validationWrite := Some(0))
              else if word == c.handshakeCheck then s.(validated := c.validated + 1, readOp := ReadingMessage)
              else s.(open := false)
  {
    hide Feed, FromLE64, EncryptWord;
    InvStep(c, Receive(bytes));
  }

  /** Bytes for the message reader go to it and nowhere else. */
  lemma MessageBytes(c: Conn, bytes: seq<byte>)
    requires Inv(c) && c.readOp == ReadingMessage && |bytes| <= c.reader.Need()
    ensures Typed(c) && Enabled(c, Receive(bytes)) && Inv(Step(c, Receive(bytes)))
    ensures Step(c, Receive(bytes)) ==
            c.(receivedBytes := c.receivedBytes + bytes, reader := Feed(c.reader, bytes))
  {
    hide Feed, FromLE64, EncryptWord, ReaderInv, HandshakeInv, ChainInv;
    InvStep(c, Receive(bytes));
  }

  /** The client's case of that. */
  lemma RequestEffect(c: Conn, bytes: seq<byte>)
    requires Inv(c) && c.owner == Client && c.readOp.ReadingValidation? && |c.readOp.got| + |bytes| == HANDSHAKE_BYTES
    ensures Typed(c) && Enabled(c, Receive(bytes)) && Inv(Step(c, Receive(bytes)))
    ensures var word := FromLE64(c.readOp.got + bytes);
            Step(c, Receive(bytes)) ==
              c.(receivedBytes := c.receivedBytes + bytes, handshakeIn := word, readOp := NoRead,
                 handshakeOut := EncryptWord(word), validationWrite := Some(0))
  {
    hide Inv, Step, Enabled, Typed, EncryptWord, FromLE64;
    ValidationComplete(c, bytes);
  }

  /** The server's case of that. */
  lemma AnswerEffect(c: Conn, bytes: seq<byte>)
    requires Inv(c) && c.owner == Server && c.readOp.ReadingValidation? && |c.readOp.got| + |bytes| == HANDSHAKE_BYTES
    ensures Typed(c) && Enabled(c, Receive(bytes)) && Inv(Step(c, Receive(bytes)))
    ensures var word := FromLE64(c.readOp.got + bytes);
            Step(c, Receive(bytes)) ==
              c.(receivedBytes := c.receivedBytes + bytes, handshakeIn := word,
                 readOp := if word == c.handshakeCheck then ReadingMessage else NoRead,
                 validated := if word == c.handshakeCheck then c.validated + 1 else c.validated,
                 open := c.open && word == c.handshakeCheck)
  {
    hide Inv, Step, Enabled, Typed, EncryptWord, FromLE64;
    ValidationComplete(c, bytes);
  }

  /** Less than the handshake word. */
  lemma PartialWord(c: Conn, bytes: seq<byte>)
    requires Inv(c) && c.readOp.ReadingValidation? && |c.readOp.got| + |bytes| < HANDSHAKE_BYTES
    ensures Typed(c) && Enabled(c, Receive(bytes)) && Inv(Step(c, Receive(bytes)))
    ensures Step(c, Receive(bytes)) ==
            c.(receivedBytes := c.receivedBytes + bytes, readOp := ReadingValidation(c.readOp.got + bytes))
  {
    hide Feed, FromLE64, EncryptWord, ReaderInv, HandshakeBody, ChainInv;
    InvStep(c, Receive(bytes));
  }

  // ---------------------------------------------------------------- runs of one end

  predicate CanRun(c: Conn, es: seq<Event>)
    decreases |es|
  {
    es != [] ==> Typed(c) && Enabled(c, es[0]) && CanRun(Step(c, es[0]), es[1..])
  }

  function Run(c: Conn, es: seq<Event>): Conn
    requires CanRun(c, es)
    decreases |es|
  {
    if es == [] then c else Run(Step(c, es[0]), es[1..])
  }

  lemma {:induction false} InvRun(c: Conn, es: seq<Event>)
    requires Inv(c) && CanRun(c, es)
    ensures Inv(Run(c, es))
    decreases |es|
  {
    if es != [] {
      InvStep(c, es[0]);
      InvRun(Step(c, es[0]), es[1..]);
    }
  }

  lemma {:induction false} SetupKept(c: Conn, es: seq<Event>)
    requires CanRun(c, es)
    ensures Run(c, es).owner == c.owner && Run(c, es).handshakeCheck == c.handshakeCheck
    ensures c.owner.Server? ==> Run(c, es).handshakeOut == c.handshakeOut
    decreases |es|
  {
    if es != [] {
      StepHistory(c, es[0]);
      hide Step, Enabled, Typed;
      SetupKept(Step(c, es[0]), es[1..]);
    }
  }

  /**
   * The handshake gate, against any peer: in every state of every run of a server connection,
   * `onClientValidated` has fired at most once, it has fired exactly if the first eight bytes
   * received are the puzzle's answer to its own challenge, and before that no message is queued.
   */
  lemma HandshakeGate(challenge: nat, es: seq<Event>)
    requires challenge < TWO64 && CanRun(Fresh(Server, challenge), es)
    ensures var c := Run(Fresh(Server, challenge), es);
            && c.validated <= 1
            && (c.validated == 1 <==> |c.receivedBytes| >= HANDSHAKE_BYTES
                                      && FromLE64(c.receivedBytes[..HANDSHAKE_BYTES]) == EncryptWord(challenge))
            && (c.validated == 0 ==> c.reader.out == [] && c.readOp != ReadingMessage
                                     && |c.receivedBytes| <= HANDSHAKE_BYTES)
            && Views(c.reader.out) ==
               Parse(if |c.receivedBytes| > HANDSHAKE_BYTES then c.receivedBytes[HANDSHAKE_BYTES..] else []).frames
  {
    hide Feed, FromLE64, EncryptWord, Parse, Views;
    FreshInv(Server, challenge);
    InvRun(Fresh(Server, challenge), es);
    SetupKept(Fresh(Server, challenge), es);
    var c := Run(Fresh(Server, challenge), es);
    ReaderParses(EMPTY_READER, if |c.receivedBytes| > HANDSHAKE_BYTES then c.receivedBytes[HANDSHAKE_BYTES..] else []);
  }

  /**
   * In every state of every run of either end there is at most one read and one chain of message
   * writes (a second one would fault), the chain runs exactly while an open connection has
   * messages queued, and it is the front message that is being written.
   */
  lemma OneChain(owner: Owner, challenge: nat, es: seq<Event>)
    requires challenge < TWO64 && CanRun(Fresh(owner, challenge), es)
    ensures var c := Run(Fresh(owner, challenge), es);
            && !c.fault
            && (c.open ==> (c.queue != [] <==> c.writeOp != WriteIdle))
            && (c.writeOp.WritingHeader? ==> c.queue != [] && c.writeOp.sent <= HEADER_BYTES)
            && (c.writeOp.WritingPayload? ==> c.queue != [] && c.writeOp.sent <= c.queue[0].count)
  {
    FreshInv(owner, challenge);
    InvRun(Fresh(owner, challenge), es);
  }

  /** While a message write is in flight, only its own completion touches the queue's front. */
  lemma FrontUntouched(c: Conn, e: Event)
    requires Inv(c) && Enabled(c, e) && c.writeOp != WriteIdle && !e.MessageSent?
    ensures c.queue != [] && c.queue <= Step(c, e).queue && Step(c, e).writeOp != WriteIdle
  {
    hide Feed, FromLE64, EncryptWord, EncodeHeader, SentPayload, LE64;
  }

  /** A read that fails and a posted `Disconnect` close the socket. */
  lemma ClosingEffect(c: Conn, e: Event)
    requires Typed(c) && Enabled(c, e) && (e.ReadFailed? || e.Disconnect?)
    ensures Step(c, e) == c.(open := false, readOp := if e.ReadFailed? then NoRead else c.readOp)
  {
    hide Typed;
  }

  // ---------------------------------------------------------------- one end, from the events alone

  /** The messages posted, and the bytes that arrived. */
  function Posts(es: seq<Event>): seq<Message> {
    if es == [] then []
    else
      var before, last := es[..|es| - 1], es[|es| - 1];
      Posts(before) + if last.Post? then [last.m] else []
  }

  function Arrivals(es: seq<Event>): seq<byte> {
    if es == [] then []
    else
      var before, last := es[..|es| - 1], es[|es| - 1];
      Arrivals(before) + if last.Receive? then last.bytes else []
  }

  /** A failed operation or a posted `Disconnect`. */
  predicate Breaks(e: Event) {
    e.ReadFailed? || e.Disconnect? || (e.ValidationSent? && !e.ok) || (e.MessageSent? && !e.ok)
  }

  predicate NothingBroke(es: seq<Event>) {
    forall k :: 0 <= k < |es| ==> !Breaks(es[k])
  }

  /** A server that has read a wrong answer. */
  predicate Refused(c: Conn) {
    c.owner.Server? && |c.receivedBytes| >= HANDSHAKE_BYTES && c.validated == 0
  }

  ghost predicate Follows(c: Conn, es: seq<Event>) {
    && c.posted == Posts(es) && c.receivedBytes == Arrivals(es)
    && (c.started <==> Start in es)
    && (c.open <==> NothingBroke(es) && !Refused(c))
  }

  lemma Next(es: seq<Event>, e: Event)
    ensures Posts(es + [e]) == Posts(es) + if e.Post? then [e.m] else []
    ensures Arrivals(es + [e]) == Arrivals(es) + if e.Receive? then e.bytes else []
    ensures NothingBroke(es + [e]) <==> NothingBroke(es) && !Breaks(e)
    ensures Start in es + [e] <==> Start in es || e == Start
  {
    assert (es + [e])[..|es|] == es;
    assert forall k :: 0 <= k < |es| ==> (es + [e])[k] == es[k];
    assert (es + [e])[|es|] == e;
  }

  lemma ReceiveOpen(c: Conn, bytes: seq<byte>)
    requires Inv(c) && Enabled(c, Receive(bytes)) && c.open && !Refused(c)
    ensures Step(c, Receive(bytes)).open <==> !Refused(Step(c, Receive(bytes)))
  {
    WhatCanArrive(c, bytes);
    hide Inv, Step, Enabled;
    if c.readOp.ReadingMessage? {
      MessageBytes(c, bytes);
    } else if |c.readOp.got| + |bytes| < HANDSHAKE_BYTES {
      PartialWord(c, bytes);
    } else {
      hide FromLE64, EncryptWord;
      ValidationComplete(c, bytes);
    }
  }

  lemma WhatCanArrive(c: Conn, bytes: seq<byte>)
    requires Inv(c) && Enabled(c, Receive(bytes))
    ensures c.readOp.ReadingMessage? ==> |bytes| <= c.reader.Need() && |c.receivedBytes| >= HANDSHAKE_BYTES
    ensures c.readOp.ReadingValidation? ==>
              c.readOp.got == c.receivedBytes && |c.readOp.got| + |bytes| <= HANDSHAKE_BYTES && c.validated == 0
  {
    hide Feed, FromLE64, EncryptWord, Reader.Need, ReaderInv;
  }

  ghost predicate Outcome(c: Conn, c': Conn, broken: bool) {
    c'.open == !broken && c'.validated == c.validated && c'.owner == c.owner && c'.receivedBytes == c.receivedBytes
  }

  /** What else happens closes the socket if it breaks something, and leaves the handshake's outcome alone. */
  lemma OtherOpen(c: Conn, e: Event)
    requires Inv(c) && Enabled(c, e) && c.open && !e.Receive?
    ensures Outcome(c, Step(c, e), Breaks(e))
  {
    hide Inv, Step, Enabled, Typed;
    EnabledOfInv(c, e);
    match e
    case Start => StartEffect(c);
    case ValidationSent(ok) => ValidationSentEffect(c, ok);
    case Post(m) => PostEffect(c, m);
    case MessageSent(ok) => MessageSentEffect(c, ok);
    case ReadFailed => ClosingEffect(c, e);
    case Disconnect => ClosingEffect(c, e);
    case _ => BytesLeave(c, e);
  }

  lemma EnabledOfInv(c: Conn, e: Event)
    requires Inv(c) && Enabled(c, e)
    ensures Typed(c) && (e.Start? ==> !c.started) && (e.Post? ==> e.m.Valid())
  {
  }

  lemma BytesLeave(c: Conn, e: Event)
    requires Typed(c) && Enabled(c, e) && (e.SendValidation? || e.SendMessage?)
    ensures Outcome(c, Step(c, e), !c.open)
  {
    hide Typed, Outgoing, LE64;
  }

  lemma RefusedStays(c: Conn, e: Event)
    requires Inv(c) && Enabled(c, e) && Inv(Step(c, e)) && Refused(c)
    ensures Refused(Step(c, e))
  {
    StepHistory(c, e);
    hide Step, Enabled, Feed, FromLE64, EncryptWord, ReaderInv, ChainInv, Typed;
  }

  lemma OpenStep(c: Conn, e: Event)
    requires Inv(c) && Enabled(c, e) && Inv(Step(c, e)) && (c.open ==> !Refused(c))
    ensures Step(c, e).open <==> c.open && !Breaks(e) && !Refused(Step(c, e))
  {
    hide Step, Enabled;
    if !c.open {
      ClosedIsSilent(c, e);
    } else if e.Receive? {
      hide Inv;
      ReceiveOpen(c, e.bytes);
    } else {
      hide Inv;
      OtherOpen(c, e);
    }
  }

  lemma FollowsNext(c: Conn, es: seq<Event>, e: Event)
    requires Inv(c) && Follows(c, es) && Enabled(c, e)
    ensures Inv(Step(c, e)) && Follows(Step(c, e), es + [e])
  {
    InvStep(c, e);
    OpenStep(c, e);
    if Refused(c) {
      RefusedStays(c, e);
    }
    StepHistory(c, e);
    Next(es, e);
    hide Inv, Step, Enabled, Typed, NothingBroke, Posts, Arrivals, Refused, Breaks;
  }

  lemma {:induction false} FollowsRun(c: Conn, earlier: seq<Event>, es: seq<Event>)
    requires Inv(c) && Follows(c, earlier) && CanRun(c, es)
    ensures Follows(Run(c, es), earlier + es)
    decreases |es|
  {
    OneByOne(earlier, es);
    if es != [] {
      hide Inv, Follows, Step, Enabled, Typed;
      FollowsNext(c, earlier, es[0]);
      FollowsRun(Step(c, es[0]), earlier + [es[0]], es[1..]);
    }
  }

  /**
   * An end does what the events call for, over every run: what was posted and received is what the
   * events brought, and the socket is open if and only if no operation failed, no `Disconnect` ran,
   * and, at a server, no wrong answer was read.
   */
  lemma RunFollowsEvents(owner: Owner, challenge: nat, es: seq<Event>)
    requires challenge < TWO64 && CanRun(Fresh(owner, challenge), es)
    ensures var c := Run(Fresh(owner, challenge), es);
            && c.posted == Posts(es) && c.receivedBytes == Arrivals(es)
            && (c.started <==> Start in es)
            && (c.open <==> NothingBroke(es) && !Refused(c))
  {
    FreshInv(owner, challenge);
    assert Follows(Fresh(owner, challenge), []);
    NothingFirst(es);
    hide Inv, Run, CanRun, Fresh, NothingBroke, Posts, Arrivals, Refused;
    FollowsRun(Fresh(owner, challenge), [], es);
  }

  // ---------------------------------------------------------------- the connection as an object

  /** One more piece of a stream. */
  lemma FeedPiece(r: Reader, bytes: seq<byte>, i: nat, n: nat)
    requires r.Valid() && i + n <= |bytes|
    ensures Feed(r, bytes[..i + n]) == Feed(Feed(r, bytes[..i]), bytes[i..i + n])
  {
    hide Feed;
    assert bytes[..i + n] == bytes[..i] + bytes[i..i + n];
    FeedAppend(r, bytes[..i], bytes[i..i + n]);
  }

  class Connection {
    const owner: Owner
    var started: bool
    var socketOpen: bool
    var handshakeOut: nat
    var handshakeIn: nat
    var handshakeCheck: nat
    var outMessages: seq<Message>
    var inMessages: seq<Message>
    var tmpInput: Message
    var validatedCalls: nat
    // the operations the I/O service holds for this connection
    var validationWrite: Option<nat>
    var answered: bool
    var writeOp: WriteOp
    var readOp: ReadOp
    var readPhase: Phase
    // what went through the socket and through SendData
    ghost var sentBytes: seq<byte>
    ghost var receivedBytes: seq<byte>
    ghost var posted: seq<Message>

    /** The reading side. */
    ghost function Input(): Reader
      reads this`readPhase, this`tmpInput, this`inMessages
    {
      Reader(readPhase, tmpInput, inMessages)
    }

    ghost function State(): Conn
      reads this
    {
      Conn(owner, started, socketOpen, handshakeOut, handshakeIn, handshakeCheck, validationWrite, answered,
           validatedCalls, outMessages, writeOp, readOp, Input(), false,
           sentBytes, receivedBytes, posted)
    }

    ghost predicate Valid()
      reads this
    {
      Inv(State())
    }

    constructor (owner: Owner, challenge: nat)
      requires challenge < TWO64
      ensures State() == Fresh(owner, challenge) && Valid()
    {
      this.owner := owner;
      started, socketOpen := false, true;
      handshakeOut := if owner.Server? then challenge else 0;
      handshakeIn := 0;
      handshakeCheck := if owner.Server? then EncryptWord(challenge) else 0;
      outMessages, inMessages, tmpInput := [], [], Message(Header(0, 0), 0, []);
      validatedCalls, validationWrite, answered := 0, None, false;
      writeOp, readOp, readPhase := WriteIdle, NoRead, InHeader([]);
      sentBytes, receivedBytes, posted := [], [], [];
      new;
      FreshInv(owner, challenge);
    }

    /** `ConnectToClient` on a server; the handler of `async_connect` on a client. */
    method StartUp()
      requires Valid() && !started
      modifies this
      ensures Valid() && State() == Step(old(State()), Start)
    {
      hide Feed, FromLE64, EncryptWord, EncodeHeader, SentPayload, LE64, ReaderInv, HandshakeBody;
      InvStep(State(), Start);
      started := true;
      if owner == Server {
        if socketOpen {
          validationWrite := Some(0);
          readOp := ReadingValidation([]);
        }
      } else {
        readOp := ReadingValidation([]);
      }
    }

    /** The lambda of `SendData`: only the first message of an empty queue primes the write chain. */
    method SendData(m: Message)
      requires Valid() && m.Valid()
      modifies this
      ensures Valid() && State() == Step(old(State()), Post(m))
    {
      hide Inv, Step, Enabled, Typed, EncodeHeader, SentPayload;
      PostEffect(State(), m);
      var writingMessage := outMessages != [];
      outMessages := outMessages + [m];
      posted := posted + [m];
      if !writingMessage {
        writeOp := WritingHeader(0);
      }
    }

    /** The completion handlers of `WriteHeader` and `writePayload`. */
    method OnMessageWritten(ok: bool)
      requires Valid() && Enabled(State(), MessageSent(ok))
      modifies this
      ensures Valid() && State() == Step(old(State()), MessageSent(ok))
    {
      hide Inv, Step, Enabled, Typed;
      MessageSentEffect(State(), ok);
      if ok {
        if writeOp.WritingHeader? && outMessages[0].count > 0 {
          writeOp := WritingPayload(0);
        } else {
          outMessages := outMessages[1..];
          if outMessages != [] {
            writeOp := WritingHeader(0);
          } else {
            writeOp := WriteIdle;
          }
        }
      } else {
        writeOp := WriteIdle;
        socketOpen := false;
      }
    }

    method OnValidationSent(ok: bool)
      requires Valid() && Enabled(State(), ValidationSent(ok))
      modifies this
      ensures Valid() && State() == Step(old(State()), ValidationSent(ok))
    {
      hide Inv, Step, Enabled, Typed;
      ValidationSentEffect(State(), ok);
      validationWrite := None;
      if ok {
        answered := true;
        if owner == Client {
          readOp := ReadingMessage;
        }
      } else {
        socketOpen := false;
      }
    }

    /** The handler of `ReadServerValidationRequest`: the client solves the puzzle. */
    method OnServerRequestRead(bytes: seq<byte>)
      requires Valid() && owner == Client
      requires readOp.ReadingValidation? && |readOp.got| + |bytes| == HANDSHAKE_BYTES
      modifies this
      ensures Valid() && State() == Step(old(State()), Receive(bytes))
    {
      hide Inv, Step, Enabled, Typed, EncryptWord, FromLE64;
      RequestEffect(State(), bytes);
      handshakeIn := FromLE64(readOp.got + bytes);
      receivedBytes := receivedBytes + bytes;
      readOp := NoRead;
      handshakeOut := EncryptWord(handshakeIn);
      validationWrite := Some(0);
    }

    /** The handler of `ReadAndCheckValidation`: the server compares the answer. */
    method OnAnswerRead(bytes: seq<byte>)
      requires Valid() && owner == Server
      requires readOp.ReadingValidation? && |readOp.got| + |bytes| == HANDSHAKE_BYTES
      modifies this
      ensures Valid() && State() == Step(old(State()), Receive(bytes))
    {
      hide Inv, Step, Enabled, Typed, EncryptWord, FromLE64;
      AnswerEffect(State(), bytes);
      handshakeIn := FromLE64(readOp.got + bytes);
      receivedBytes := receivedBytes + bytes;
      readOp := NoRead;
      if handshakeIn == handshakeCheck {
        validatedCalls := validatedCalls + 1;
        readOp := ReadingMessage;
      } else {
        socketOpen := false;
      }
    }

    /** Some, but not yet all, of the handshake bytes arrive. */
    method OnValidationBytes(bytes: seq<byte>)
      requires Valid() && readOp.ReadingValidation? && |readOp.got| + |bytes| < HANDSHAKE_BYTES
      modifies this`readOp, this`receivedBytes
      ensures Valid() && State() == Step(old(State()), Receive(bytes))
    {
      hide Feed, FromLE64, EncryptWord, ReaderInv, HandshakeBody, ChainInv;
      InvStep(State(), Receive(bytes));
      receivedBytes := receivedBytes + bytes;
      readOp := ReadingValidation(readOp.got + bytes);
    }

    /** Bytes of the handshake word leave. */
    method TransmitValidation(k: nat) returns (bytes: seq<byte>)
      requires Valid() && Enabled(State(), SendValidation(k))
      modifies this`validationWrite, this`sentBytes
      ensures Valid() && State() == Step(old(State()), SendValidation(k))
      ensures sentBytes == old(sentBytes) + bytes
    {
      hide Feed, FromLE64, EncryptWord, LE64, ReaderInv, HandshakeBody, ChainInv;
      InvStep(State(), SendValidation(k));
      var sent := validationWrite.value;
      bytes := LE64(handshakeOut)[sent..sent + k];
      validationWrite := Some(sent + k);
      sentBytes := sentBytes + bytes;
    }

    /** Bytes of the front message's header or payload leave. */
    method TransmitMessage(k: nat) returns (bytes: seq<byte>)
      requires Valid() && Enabled(State(), SendMessage(k))
      modifies this`writeOp, this`sentBytes
      ensures Valid() && State() == Step(old(State()), SendMessage(k))
      ensures sentBytes == old(sentBytes) + bytes
    {
      hide Feed, FromLE64, EncryptWord, Outgoing, ReaderInv, HandshakeInv, ChainInv;
      InvStep(State(), SendMessage(k));
      var sent := writeOp.sent;
      bytes := Outgoing(outMessages, writeOp)[sent..sent + k];
      writeOp := writeOp.(sent := sent + k);
      sentBytes := sentBytes + bytes;
    }

    /** The lambda of `Disconnect`. */
    method OnDisconnect()
      requires Valid()
      modifies this`socketOpen
      ensures Valid() && State() == Step(old(State()), Event.Disconnect)
    {
      hide Feed, FromLE64, EncryptWord, Outgoing, ReaderInv, HandshakeInv;
      InvStep(State(), Event.Disconnect);
      socketOpen := false;
    }

    method OnReadFailed()
      requires Valid() && readOp != NoRead
      modifies this
      ensures Valid() && State() == Step(old(State()), ReadFailed)
    {
      hide Feed, FromLE64, EncryptWord, EncodeHeader, SentPayload, LE64, ReaderInv, HandshakeBody;
      InvStep(State(), ReadFailed);
      readOp := NoRead;
      socketOpen := false;
    }

    /** The handler of `ReadHeader`. */
    method OnHeaderRead(bytes: seq<byte>)
      requires Input().Valid() && |bytes| == HEADER_BYTES
      modifies this`tmpInput, this`readPhase, this`inMessages
      ensures Input() == HeaderRead(old(Input()), bytes)
    {
      tmpInput := tmpInput.(header := DecodeHeader(bytes));
      if tmpInput.header.size > 0 {
        tmpInput := Resize(tmpInput, tmpInput.header.size);
        readPhase := InPayload(0);
      } else {
        AddToIncomingMsgQueue();
      }
    }

    method AddToIncomingMsgQueue()
      modifies this`readPhase, this`inMessages
      ensures Input() == Deliver(old(Input()))
    {
      inMessages := inMessages + [tmpInput];
      readPhase := InHeader([]);
    }

    /** The length of the buffer left in the outstanding message read. */
    method BytesWanted() returns (n: nat)
      requires Input().Valid()
      ensures n == Input().Need()
    {
      n := match readPhase case InHeader(got) => HEADER_BYTES - |got| case InPayload(f) => tmpInput.count - f;
    }

    /** A piece no longer than the outstanding message read waits for; a full read runs its handler. */
    method TakePiece(piece: seq<byte>)
      requires Input().Valid() && |piece| <= Input().Need()
      modifies this`tmpInput, this`readPhase, this`inMessages
      ensures Input() == Feed(old(Input()), piece)
    {
      hide Feed, DecodeHeader, Resize, Overwrite;
      ghost var r := Input();
      match readPhase {
        case InHeader(got) =>
          if |got| + |piece| < HEADER_BYTES {
            FeedInHeader(r, piece);
            readPhase := InHeader(got + piece);
          } else {
            FeedHeader(r, piece);
            OnHeaderRead(got + piece);
          }
        case InPayload(filled) =>
          var complete := filled + |piece| == tmpInput.count;
          if complete { FeedPayload(r, piece); } else { FeedInPayload(r, piece); }
          tmpInput := tmpInput.(memory := Overwrite(tmpInput.memory, filled, piece));
          if complete {
            AddToIncomingMsgQueue();
          } else {
            readPhase := InPayload(filled + |piece|);
          }
      }
    }

    /**
     * Bytes of the stream reach the outstanding message reads: each composed read takes what it
     * still waits for, runs its handler when it is full, and the next one takes over.
     */
    method TakeBytes(bytes: seq<byte>)
      requires Input().Valid()
      modifies this`tmpInput, this`readPhase, this`inMessages
      ensures Input() == Feed(old(Input()), bytes)
    {
      ghost var before := Input();
      assert Feed(before, bytes[..0]) == before;
      hide Feed, Reader.Need, Reader.Valid;
      var i := 0;
      while i < |bytes|
        invariant 0 <= i <= |bytes|
        invariant Input() == Feed(before, bytes[..i])
      {
        var left := BytesWanted();
        var n := if left <= |bytes| - i then left else |bytes| - i;
        var piece := bytes[i..i + n];
        FeedPiece(before, bytes, i, n);
        TakePiece(piece);
        i := i + n;
      }
      assert bytes[..|bytes|] == bytes;
    }

    /** Bytes arrive for the outstanding message read. */
    method OnMessageBytes(bytes: seq<byte>)
      requires Valid() && readOp == ReadingMessage && |bytes| <= Input().Need()
      modifies this
      ensures Valid() && State() == Step(old(State()), Receive(bytes))
    {
      hide Feed, Step, Enabled, ReaderInv, HandshakeInv, ChainInv, Reader.Need;
      MessageBytes(State(), bytes);
      hide Inv, Typed;
      TakeBytes(bytes);
      receivedBytes := receivedBytes + bytes;
    }
  }
}

/**
 * Messages queued at any time up to the end of the handshake, the one the repository's server posts
 * before it has begun to send its challenge included: exactly when can they spoil the handshake?
 */
module BeforeHandshake {
  import opened Arith
  import opened Messages
  import opened Framing
  import opened HandshakeWords
  import opened Connections
  import opened EndToEnd
  import opened PostTiming
  import opened Interleaving
  import opened Wrappers

  // ---------------------------------------------------------------- when the word begins

  /** The end has not come to send its handshake word. */
  predicate NotBegun(c: Conn) {
    && c.validationWrite.None? && !c.answered
    && if c.owner.Client? then |c.receivedBytes| < HANDSHAKE_BYTES else !c.started
  }

  /** An open end has not begun its word - a started client waits for the challenge -, is sending it, or has sent it. */
  predicate WordPhases(c: Conn) {
    c.open ==> (NotBegun(c) && (c.started ==> c.readOp.ReadingValidation?)) || c.validationWrite.Some? || c.answered
  }

  lemma PhasesStep(c: Conn, e: Event)
    requires Inv(c) && Enabled(c, e) && WordPhases(c)
    ensures WordPhases(Step(c, e))
  {
    TypedOfInv(c);
    hide Inv, Step;
    if !c.open {
      hide Enabled;
      ClosedIsSilent(c, e);
    } else {
      match e
      case Start => StartEffect(c); NothingReceived(c);
      case SendValidation(k) => SendsNoMore(c, k);
      case ValidationSent(ok) => ValidationSentEffect(c, ok);
      case Post(m) => hide Typed; PostEffect(c, m);
      case SendMessage(k) => SendsMessage(c, k);
      case MessageSent(ok) => hide Enabled; MessageSentEffect(c, ok);
      case Receive(bytes) => PhasesReceive(c, bytes);
      case ReadFailed => ClosingEffect(c, e);
      case Disconnect => ClosingEffect(c, e);
    }
  }

  lemma NothingReceived(c: Conn)
    requires Inv(c) && !c.started
    ensures c.receivedBytes == [] && c.validationWrite.None? && !c.answered
  {
    hide ReaderInv, HandshakeBody, ChainInv;
  }

  lemma SendsNoMore(c: Conn, k: nat)
    requires Typed(c) && Enabled(c, SendValidation(k))
    ensures Step(c, SendValidation(k)).validationWrite.Some?
  {
    hide Typed, LE64;
  }

  lemma SendsMessage(c: Conn, k: nat)
    requires Typed(c) && Enabled(c, SendMessage(k))
    ensures Step(c, SendMessage(k)) ==
            c.(writeOp := Step(c, SendMessage(k)).writeOp, sentBytes := Step(c, SendMessage(k)).sentBytes)
  {
    hide Typed, Outgoing;
  }

  lemma PhasesReceive(c: Conn, bytes: seq<byte>)
    requires Inv(c) && Enabled(c, Receive(bytes)) && WordPhases(c) && c.open
    ensures WordPhases(Step(c, Receive(bytes)))
  {
    WhatArrives(c, bytes);
    hide Inv, Step, Enabled;
    if c.readOp.ReadingMessage? {
      MessageBytes(c, bytes);
    } else if |c.readOp.got| + |bytes| < HANDSHAKE_BYTES {
      PartialWord(c, bytes);
    } else {
      hide FromLE64, EncryptWord;
      ValidationComplete(c, bytes);
    }
  }

  lemma {:induction false} PhasesRun(challenge: nat, n: Net, es: seq<NetEvent>)
    requires challenge < TWO64 && NetInv(n, challenge) && CanRunNet(n, es) && GatedRun(n, es)
    requires WordPhases(n.server) && WordPhases(n.client)
    ensures var n' := RunNet(n, es); WordPhases(n'.server) && WordPhases(n'.client)
    decreases |es|
  {
    if es != [] {
      NetInvStep(n, es[0], challenge);
      PhasesNetStep(challenge, n, es[0]);
      hide NetStep, NetInv, NetEnabled, WordPhases, Gated;
      PhasesRun(challenge, NetStep(n, es[0]), es[1..]);
    }
  }

  lemma PhasesNetStep(challenge: nat, n: Net, ne: NetEvent)
    requires challenge < TWO64 && NetInv(n, challenge) && NetEnabled(n, ne)
    requires WordPhases(n.server) && WordPhases(n.client)
    ensures var n' := NetStep(n, ne); WordPhases(n'.server) && WordPhases(n'.client)
  {
    hide Inv, SentInv, Step, Enabled, WordPhases;
    PhasesStep(n.End(ne.owner), ne.e);
  }

  lemma PhasesReached(challenge: nat, n: Net)
    requires challenge < TWO64 && NetReaches(challenge, n, true)
    ensures WordPhases(n.server) && WordPhases(n.client)
  {
    var es :| CanRunNet(Initial(challenge), es) && RunNet(Initial(challenge), es) == n && GatedRun(Initial(challenge), es);
    InitialInv(challenge);
    hide NetInv, CanRunNet, RunNet, GatedRun;
    PhasesRun(challenge, Initial(challenge), es);
  }

  // ---------------------------------------------------------------- a message that waits for no word

  /** The first message is being written before the word has begun; only bytes equal to the word's can come. */
  ghost predicate Waits(c: Conn, word: seq<byte>)
    requires Typed(c)
  {
    && NotBegun(c) && c.open && c.writeOp == WritingHeader(|c.sentBytes|) && |c.sentBytes| < HANDSHAKE_BYTES
    && |word| == HANDSHAKE_BYTES && c.sentBytes <= word
    && Alike(word, HeaderOf(c), 0, |c.sentBytes|)
    && (c.owner.Server? ==> LE64(c.handshakeOut) == word)
  }

  /** The word is right so far, or has not begun; and nothing else can come to stand in its place. */
  ghost predicate WordOrWaits(c: Conn, word: seq<byte>)
    requires Typed(c)
  {
    SafeWord(c, word) || Waits(c, word)
  }

  /** Should the bytes complete the challenge at a client, then its answer is `word`. */
  ghost predicate Promised(c: Conn, e: Event, word: seq<byte>) {
    c.owner.Client? && e.Receive? && |c.receivedBytes| < HANDSHAKE_BYTES <= |c.receivedBytes + e.bytes| ==>
      LE64(EncryptWord(FromLE64((c.receivedBytes + e.bytes)[..HANDSHAKE_BYTES]))) == word
  }

  /** Nothing that the message or the word depends on has changed. */
  lemma StillWaits(c: Conn, c': Conn, word: seq<byte>)
    requires Typed(c) && Typed(c') && Waits(c, word) && NotBegun(c') && c'.open && c'.owner == c.owner
    requires c'.writeOp == c.writeOp && c'.sentBytes == c.sentBytes && c'.handshakeOut == c.handshakeOut
    requires c.queue <= c'.queue
    ensures Waits(c', word)
  {
    hide LE64, EncodeHeader, Alike, NotBegun;
  }

  lemma ClosedIsSafe(c: Conn, c': Conn, word: seq<byte>)
    requires Typed(c) && Typed(c') && Waits(c, word) && !c'.open && c'.sentBytes == c.sentBytes
    ensures SafeWord(c', word)
  {
    hide LE64, EncodeHeader, Alike, NotBegun;
  }

  /** The word begins, with both writes in flight. */
  lemma WordJoins(c: Conn, c': Conn, word: seq<byte>)
    requires Typed(c) && Typed(c') && Waits(c, word)
    requires c'.validationWrite == Some(0) && LE64(c'.handshakeOut) == word
    requires c'.writeOp == c.writeOp && c'.sentBytes == c.sentBytes && c'.queue == c.queue
    ensures SafeWord(c', word)
  {
    hide LE64, EncodeHeader, Alike, NotBegun;
  }

  lemma WaitsStep(c: Conn, e: Event, word: seq<byte>)
    requires Inv(c) && Enabled(c, e) && Waits(c, word) && Promised(c, e, word)
    ensures Inv(Step(c, e)) && WordOrWaits(Step(c, e), word)
  {
    TypedOfInv(c);
    InvStep(c, e);
    TypedOfInv(Step(c, e));
    hide Inv, Typed, Step, Enabled, Waits, WordOrWaits, Promised;
    match e
    case Start => WaitsStart(c, word);
    case SendValidation(k) => NoWordToSend(c, e, word);
    case ValidationSent(ok) => NoWordToSend(c, e, word);
    case Post(m) => WaitsPost(c, m, word);
    case SendMessage(k) => WaitsSend(c, k, word);
    case MessageSent(ok) => WaitsMessageSent(c, ok, word);
    case Receive(bytes) => WaitsReceive(c, bytes, word);
    case ReadFailed => WaitsClosed(c, e, word);
    case Disconnect => WaitsClosed(c, e, word);
  }

  lemma NoWordToSend(c: Conn, e: Event, word: seq<byte>)
    requires Typed(c) && Enabled(c, e) && Waits(c, word)
    ensures !e.SendValidation? && !e.ValidationSent?
  {
    hide Typed, Alike, LE64;
  }

  lemma WaitsStart(c: Conn, word: seq<byte>)
    requires Inv(c) && Enabled(c, Start) && Waits(c, word) && Typed(Step(c, Start))
    ensures WordOrWaits(Step(c, Start), word)
  {
    TypedOfInv(c);
    StartEffect(c);
    hide Inv, Step, Enabled, SafeWord;
    if c.owner.Client? {
      hide Typed;
      StillWaits(c, Step(c, Start), word);
    } else {
      assert LE64(c.handshakeOut) == word;
      hide Typed;
      WordJoins(c, Step(c, Start), word);
    }
  }

  lemma WaitsPost(c: Conn, m: Message, word: seq<byte>)
    requires Inv(c) && Enabled(c, Post(m)) && Waits(c, word) && Typed(Step(c, Post(m)))
    ensures WordOrWaits(Step(c, Post(m)), word)
  {
    TypedOfInv(c);
    assert c.queue != [];
    hide Inv, Step, Typed, SafeWord;
    PostEffect(c, m);
    StillWaits(c, Step(c, Post(m)), word);
  }

  lemma WaitsSend(c: Conn, k: nat, word: seq<byte>)
    requires Inv(c) && Enabled(c, SendMessage(k)) && Waits(c, word) && Typed(Step(c, SendMessage(k)))
    ensures WordOrWaits(Step(c, SendMessage(k)), word)
  {
    MixedHeader(c.sentBytes, word, HeaderOf(c), 0, |c.sentBytes|, k);
    hide LE64, HandshakeInv, ReaderInv, ChainInv, Alike, EncodeHeader, CannotMix;
  }

  lemma WaitsMessageSent(c: Conn, ok: bool, word: seq<byte>)
    requires Inv(c) && Enabled(c, MessageSent(ok)) && Waits(c, word) && Typed(Step(c, MessageSent(ok)))
    ensures WordOrWaits(Step(c, MessageSent(ok)), word)
  {
    TypedOfInv(c);
    HeaderUnfinished(c, ok, word);
    hide Inv, Step, Enabled, Typed, SafeWord, Waits;
    MessageSentEffect(c, ok);
    ClosedIsSafe(c, Step(c, MessageSent(ok)), word);
  }

  lemma HeaderUnfinished(c: Conn, ok: bool, word: seq<byte>)
    requires Typed(c) && Enabled(c, MessageSent(ok)) && Waits(c, word)
    ensures !ok
  {
    hide EncodeHeader, SentPayload, Alike, LE64;
  }

  lemma WaitsReceive(c: Conn, bytes: seq<byte>, word: seq<byte>)
    requires Inv(c) && Enabled(c, Receive(bytes)) && Waits(c, word) && Typed(Step(c, Receive(bytes)))
    requires Promised(c, Receive(bytes), word)
    ensures WordOrWaits(Step(c, Receive(bytes)), word)
  {
    TypedOfInv(c);
    WhatArrives(c, bytes);
    assert NotBegun(c) && c.open;
    hide Inv, Step, Enabled, Typed, SafeWord, Waits;
    if |c.readOp.got| + |bytes| < HANDSHAKE_BYTES {
      PartialWord(c, bytes);
      StillWaits(c, Step(c, Receive(bytes)), word);
    } else {
      assert (c.receivedBytes + bytes)[..HANDSHAKE_BYTES] == c.receivedBytes + bytes;
      hide FromLE64, LE64, EncryptWord;
      RequestEffect(c, bytes);
      WordJoins(c, Step(c, Receive(bytes)), word);
    }
  }

  lemma WaitsClosed(c: Conn, e: Event, word: seq<byte>)
    requires Typed(c) && Enabled(c, e) && Waits(c, word) && (e.ReadFailed? || e.Disconnect?) && Typed(Step(c, e))
    ensures WordOrWaits(Step(c, e), word)
  {
    ClosingEffect(c, e);
    hide Typed, Step, Enabled, SafeWord, Waits;
    ClosedIsSafe(c, Step(c, e), word);
  }

  lemma WordOrWaitsStep(c: Conn, e: Event, word: seq<byte>)
    requires Inv(c) && Enabled(c, e) && WordOrWaits(c, word) && Promised(c, e, word)
    ensures Inv(Step(c, e)) && WordOrWaits(Step(c, e), word)
  {
    TypedOfInv(c);
    hide Inv, Typed, Step, Enabled, Waits, SafeWord, Promised;
    if SafeWord(c, word) {
      SafeWordStep(c, e, word);
    } else {
      WaitsStep(c, e, word);
    }
    TypedOfInv(Step(c, e));
  }

  /** An open end with messages queued and its word not begun, if word and header have all bytes alike. */
  lemma WaitsNow(c: Conn, word: seq<byte>)
    requires Inv(c) && SentInv(c) && NotBegun(c) && c.open && c.queue != []
    requires |word| == HANDSHAKE_BYTES && (c.owner.Server? ==> LE64(c.handshakeOut) == word)
    requires !Differ(word, FrontHeader(c), 0)
    ensures Waits(c, word)
  {
    NothingOut(c);
    hide Inv, SentInv, LE64, EncodeHeader, NotBegun;
  }

  lemma NothingOut(c: Conn)
    requires Inv(c) && SentInv(c) && NotBegun(c) && c.open && c.queue != []
    ensures Typed(c) && c.sentBytes == [] && c.writeOp == WritingHeader(0)
  {
    hide LE64, Feed, ReaderInv, HandshakeBody, WireAll, Rest;
  }

  // ---------------------------------------------------------------- the client's end

  lemma PromiseKept(n: Net, e: Event, challenge: nat)
    requires challenge < TWO64 && Inv(n.server) && SentInv(n.server) && n.server.handshakeOut == challenge
    requires EndEnabled(n.client, n.server, e)
    ensures Promised(n.client, e, LE64(EncryptWord(challenge)))
  {
    hide Inv, SentInv, Enabled, Typed, LE64, FromLE64, EncryptWord;
    if e.Receive? && HANDSHAKE_BYTES <= |n.client.receivedBytes + e.bytes| {
      WordArrives(n.server, n.client.(receivedBytes := n.client.receivedBytes + e.bytes));
    }
  }

  /** The client sends the answer to the challenge and nothing else for its word; the server keeps the premise. */
  ghost predicate AnswerComes(n: Net, challenge: nat)
    requires challenge < TWO64
  {
    && Inv(n.server) && SentInv(n.server) && Inv(n.client)
    && n.server.owner == Server && n.client.owner == Client && n.server.handshakeOut == challenge
    && n.client.receivedBytes <= n.server.sentBytes && n.server.receivedBytes <= n.client.sentBytes
    && WordOrWaits(n.client, LE64(EncryptWord(challenge)))
  }

  lemma AnswerComesStep(n: Net, ne: NetEvent, challenge: nat)
    requires challenge < TWO64 && AnswerComes(n, challenge) && NetEnabled(n, ne)
    requires ne.owner == Server ==> Gated(n, ne)
    ensures AnswerComes(NetStep(n, ne), challenge)
  {
    hide Inv, SentInv, Step, Enabled, Typed, LE64, EncryptWord, WordOrWaits, GatedEnd, Promised;
    StepHistory(n.End(ne.owner), ne.e);
    if ne.owner == Server {
      SentStep(n.server, ne.e);
    } else {
      PromiseKept(n, ne.e, challenge);
      WordOrWaitsStep(n.client, ne.e, LE64(EncryptWord(challenge)));
    }
  }

  lemma {:induction false} AnswerComesRun(n: Net, es: seq<NetEvent>, challenge: nat)
    requires challenge < TWO64 && AnswerComes(n, challenge) && CanRunNet(n, es) && GatedAt(n, es, Server)
    ensures AnswerComes(RunNet(n, es), challenge)
    decreases |es|
  {
    if es != [] {
      AnswerComesStep(n, es[0], challenge);
      hide NetStep, AnswerComes, NetEnabled, Gated;
      AnswerComesRun(NetStep(n, es[0]), es[1..], challenge);
    }
  }

  lemma AnswerComesAccepted(n: Net, challenge: nat)
    requires challenge < TWO64 && AnswerComes(n, challenge)
    ensures !Rejected(n)
  {
    if |n.server.receivedBytes| >= HANDSHAKE_BYTES {
      hide Inv, SentInv, LE64, EncryptWord, SafeWord, Alike;
      ReadingServer(n.server);
      AnswerSafeAccepted(n, challenge);
    }
  }

  /** A continuation and then another. */
  lemma {:induction false} RunOn(n: Net, es: seq<NetEvent>, n1: Net, more: seq<NetEvent>, n': Net, gatedAt: Owner)
    requires Continuation(n, es, n1, gatedAt) && Continuation(n1, more, n', gatedAt)
    ensures Continuation(n, es + more, n', gatedAt)
    decreases |es|
  {
    if es == [] {
      assert es + more == more;
    } else {
      hide NetStep, NetEnabled, Gated;
      RunOn(NetStep(n, es[0]), es[1..], n1, more, n', gatedAt);
      assert (es + more)[0] == es[0] && (es + more)[1..] == es[1..] + more;
    }
  }

  lemma RejectLater(n: Net, n1: Net)
    requires Leads(n, n1, Server) && CanReject(n1)
    ensures CanReject(n)
  {
    hide Rejected, Continuation;
    FromLeads(n, n1, Server);
    var es :| Continuation(n, es, n1, Server);
    var more, n' :| Continuation(n1, more, n', Server) && Rejected(n');
    RunOn(n, es, n1, more, n', Server);
  }

  /** One step of one end, both ends keeping the premise. */
  lemma LeadsGated(n: Net, n': Net, owner: Owner, e: Event, c: Conn, gatedAt: Owner, challenge: nat)
    requires challenge < TWO64 && Leads(n, n', gatedAt) && NetInv(n', challenge)
    requires EndEnabled(n'.End(owner), n'.End(Other(owner)), e)
    requires c == Step(n'.End(owner), e) && GatedEnd(n'.End(owner), e)
    ensures Leads(n, n'.With(owner, c), gatedAt) && NetInv(n'.With(owner, c), challenge)
  {
    hide Leads, Step, EndEnabled, GatedEnd, NetInv;
    LeadsAt(n, n', owner, e, c, gatedAt);
    NetInvStep(n', At(owner, e), challenge);
  }

  /** An open server that waits for the answer can send what is missing of its challenge. */
  lemma ChallengeLeaves(challenge: nat, n: Net) returns (s: Conn)
    requires challenge < TWO64 && NetInv(n, challenge) && WordPhases(n.server)
    requires n.server.open && n.server.readOp.ReadingValidation?
    ensures Leads(n, n.(server := s), Server) && NetInv(n.(server := s), challenge)
    ensures s.open && s.readOp.ReadingValidation? && |s.sentBytes| >= HANDSHAKE_BYTES
  {
    LeadsNowhere(n, Server);
    ServerOf(n, challenge);
    hide Leads, NetInv, Inv, SentInv, WordPhases, Step, Enabled, Typed, LE64;
    s := n.server;
    if |s.sentBytes| < HANDSHAKE_BYTES {
      var v := WordUnderWay(s);
      s := WordLeaves(n.server, HANDSHAKE_BYTES - v);
      LeadsGated(n, n, Server, SendValidation(HANDSHAKE_BYTES - v), s, Server, challenge);
    }
  }

  lemma ServerOf(n: Net, challenge: nat)
    requires challenge < TWO64 && NetInv(n, challenge)
    ensures Inv(n.server) && SentInv(n.server) && n.server.owner == Server
  {
  }

  lemma WordUnderWay(c: Conn) returns (v: nat)
    requires Inv(c) && SentInv(c) && WordPhases(c) && c.owner == Server && c.open && c.readOp.ReadingValidation?
    requires |c.sentBytes| < HANDSHAKE_BYTES
    ensures c.validationWrite == Some(v) && v == |c.sentBytes|
  {
    hide LE64, ReaderInv, ChainInv, StreamInv, HandshakeBody;
    v := |c.sentBytes|;
  }

  /** An open client that has not begun its word can come to read the challenge. */
  lemma ClientListens(challenge: nat, n0: Net, n: Net) returns (c: Conn)
    requires challenge < TWO64 && Leads(n0, n, Server) && NetInv(n, challenge)
    requires WordPhases(n.client) && NotBegun(n.client) && n.client.open
    ensures Leads(n0, n.(client := c), Server) && NetInv(n.(client := c), challenge)
    ensures c.open && c.readOp.ReadingValidation? && c.queue == n.client.queue
  {
    c := n.client;
    if !c.started {
      StartEffect(c);
      c := Step(n.client, Start);
      hide Leads, NetInv, Step, Typed;
      LeadsGated(n0, n, Client, Start, c, Server, challenge);
    }
  }

  /** And there it begins its word. */
  lemma ClientReadsChallenge(challenge: nat, n0: Net, n: Net) returns (c: Conn)
    requires challenge < TWO64 && Leads(n0, n, Server) && NetInv(n, challenge)
    requires n.client.readOp.ReadingValidation? && |n.server.sentBytes| >= HANDSHAKE_BYTES
    ensures Leads(n0, n.(client := c), Server) && NetInv(n.(client := c), challenge)
    ensures c.open == n.client.open && c.queue == n.client.queue && c.validationWrite.Some? && c.sentBytes == []
  {
    var word := n.server.sentBytes[..HANDSHAKE_BYTES];
    ClientOf(n, challenge);
    hide Leads, NetInv, Step, Enabled, Typed, Inv, SentInv, FromLE64, EncryptWord;
    ReadingWord(n.client);
    c := ClientMisreads(n.client, word);
    LeadsGated(n0, n, Client, Receive(word[|n.client.receivedBytes|..]), c, Server, challenge);
  }

  lemma ClientOf(n: Net, challenge: nat)
    requires challenge < TWO64 && NetInv(n, challenge)
    ensures Inv(n.client) && SentInv(n.client) && n.client.owner == Client && n.client.receivedBytes <= n.server.sentBytes
  {
  }

  lemma EarlyClientCanMixUp(challenge: nat, n: Net)
    requires challenge < TWO64 && NetInv(n, challenge) && WordPhases(n.server) && WordPhases(n.client)
    requires n.client.open && NotBegun(n.client) && n.client.queue != []
    requires n.server.open && n.server.readOp.ReadingValidation?
    requires Differ(LE64(EncryptWord(challenge)), FrontHeader(n.client), 0)
    ensures CanReject(n)
  {
    hide Leads, NetInv, LE64, EncryptWord, Differ, FrontHeader, CanReject, WordPhases, NotBegun;
    var s := ChallengeLeaves(challenge, n);
    var c := ClientListens(challenge, n, n.(server := s));
    var c' := ClientReadsChallenge(challenge, n, Net(s, c));
    BothTyped(n, challenge);
    BothTyped(Net(s, c'), challenge);
    SameFront(n.client, c');
    ClientCanMixUp(challenge, Net(s, c'));
    RejectLater(n, Net(s, c'));
  }

  lemma SameFront(c: Conn, c': Conn)
    requires Typed(c) && Typed(c') && c.queue == c'.queue != []
    ensures FrontHeader(c) == FrontHeader(c')
  {
  }

  lemma EarlyAnswerIsSafe(challenge: nat, n: Net, es: seq<NetEvent>)
    requires challenge < TWO64 && NetInv(n, challenge) && NotBegun(n.client) && n.client.open && n.client.queue != []
    requires !Differ(LE64(EncryptWord(challenge)), FrontHeader(n.client), 0)
    requires CanRunNet(n, es) && GatedAt(n, es, Server)
    ensures !Rejected(RunNet(n, es))
  {
    hide Inv, SentInv, CanRunNet, RunNet, GatedAt, LE64, EncryptWord, Differ, FrontHeader, NotBegun;
    hide SafeWord, Waits, Rejected;
    WaitsNow(n.client, LE64(EncryptWord(challenge)));
    AnswerComesRun(n, es, challenge);
    AnswerComesAccepted(RunNet(n, es), challenge);
  }

  lemma EarlyClientExact(challenge: nat, n: Net)
    requires challenge < TWO64 && NetInv(n, challenge) && WordPhases(n.server) && WordPhases(n.client)
    requires n.client.open && NotBegun(n.client) && n.client.queue != []
    requires n.server.open && n.server.readOp.ReadingValidation?
    ensures Typed(n.client) && n.client.sentBytes == []
    ensures CanReject(n) <==> Differ(LE64(EncryptWord(challenge)), FrontHeader(n.client), 0)
  {
    NothingOut(n.client);
    hide NetInv, LE64, EncryptWord, FrontHeader, Differ, NotBegun, WordPhases;
    if Differ(LE64(EncryptWord(challenge)), FrontHeader(n.client), 0) {
      EarlyClientCanMixUp(challenge, n);
    } else if CanReject(n) {
      var es, n' :| Continuation(n, es, n', Server) && Rejected(n');
      hide CanRunNet, RunNet, GatedAt, Rejected;
      EarlyAnswerIsSafe(challenge, n, es);
      assert false;
    }
  }

  /** A closed client, or one that has sent its answer. */
  lemma LateClientSafe(challenge: nat, n: Net)
    requires challenge < TWO64 && NetReaches(challenge, n, true) && NetInv(n, challenge)
    requires !n.client.open || |n.client.sentBytes| >= HANDSHAKE_BYTES
    ensures !CanReject(n)
  {
    BothTyped(n, challenge);
    hide NetReaches, NetInv;
    if CanReject(n) {
      var es, n' :| Continuation(n, es, n', Server) && Rejected(n');
      hide CanRunNet, RunNet, GatedAt, Rejected;
      AnswerIsSafe(challenge, n, es);
      assert false;
    }
  }

  lemma AnsweredIsOut(c: Conn)
    requires Inv(c) && SentInv(c) && c.answered
    ensures |c.sentBytes| >= HANDSHAKE_BYTES
  {
  }

  /**
   * The client's end, exactly: in every state reached under the premise in which the client has
   * messages queued, whether or not it has been challenged, and the open server waits for the
   * answer, some order in which the bytes of the client's two writes leave gets it rejected if and
   * only if the client is open and some byte of the answer still to come differs from some byte of
   * the first header that could come to stand in the answer.
   */
  lemma ClientQueueExact(challenge: nat, n: Net)
    requires challenge < TWO64 && NetReaches(challenge, n, true) && n.client.queue != []
    requires n.server.open && n.server.readOp.ReadingValidation?
    ensures Typed(n.client)
    ensures CanReject(n) <==>
            n.client.open && Differ(LE64(EncryptWord(challenge)), FrontHeader(n.client), |n.client.sentBytes|)
  {
    ReachedInv(challenge, n);
    PhasesReached(challenge, n);
    BothTyped(n, challenge);
    if n.client.answered {
      AnsweredIsOut(n.client);
    }
    hide NetReaches, NetInv, CanReject, NotBegun, LE64, EncryptWord, FrontHeader;
    if n.client.open && NotBegun(n.client) {
      EarlyClientExact(challenge, n);
    } else if BothInFlight(n.client) {
      ClientOrderExact(challenge, n);
    } else {
      LateClientSafe(challenge, n);
    }
  }

  // ---------------------------------------------------------------- the server's end

  /** The server sends its challenge and nothing else for its word. */
  ghost predicate ChallengeComes(n: Net, challenge: nat)
    requires challenge < TWO64
  {
    && Inv(n.server) && Inv(n.client) && n.server.owner == Server && n.client.owner == Client
    && n.client.receivedBytes <= n.server.sentBytes
    && WordOrWaits(n.server, LE64(challenge))
  }

  lemma ChallengeComesStep(n: Net, ne: NetEvent, challenge: nat)
    requires challenge < TWO64 && ChallengeComes(n, challenge) && NetEnabled(n, ne)
    ensures ChallengeComes(NetStep(n, ne), challenge)
  {
    hide Inv, Step, Enabled, Typed, LE64, WordOrWaits;
    InvStep(n.End(ne.owner), ne.e);
    StepHistory(n.End(ne.owner), ne.e);
    if ne.owner == Server {
      WordOrWaitsStep(n.server, ne.e, LE64(challenge));
    }
  }

  lemma {:induction false} ChallengeComesRun(n: Net, es: seq<NetEvent>, challenge: nat)
    requires challenge < TWO64 && ChallengeComes(n, challenge) && CanRunNet(n, es)
    ensures ChallengeComes(RunNet(n, es), challenge)
    decreases |es|
  {
    if es != [] {
      ChallengeComesStep(n, es[0], challenge);
      hide NetStep, ChallengeComes, NetEnabled;
      ChallengeComesRun(NetStep(n, es[0]), es[1..], challenge);
    }
  }

  lemma ChallengeComesTaken(n: Net, challenge: nat)
    requires challenge < TWO64 && ChallengeComes(n, challenge)
    ensures !Misled(n, challenge)
  {
    if |n.client.receivedBytes| >= HANDSHAKE_BYTES {
      hide Inv, LE64, SafeWord, Alike;
      ChallengeSafeTaken(n, challenge);
    }
  }

  /** A server that has not begun comes to begin. */
  lemma EarlyServerCanMixUp(challenge: nat, n: Net)
    requires challenge < TWO64 && NetInv(n, challenge)
    requires n.server.open && NotBegun(n.server) && n.server.queue != [] && n.client.readOp.ReadingValidation?
    requires Differ(LE64(challenge), FrontHeader(n.server), 0)
    ensures CanMislead(n, challenge)
  {
    StartEffect(n.server);
    NothingOut(n.server);
    var s := Step(n.server, Start);
    LeadsNowhere(n, Client);
    hide Leads, NetInv, LE64, Differ, FrontHeader, CanMislead, Step, Typed;
    LeadsGated(n, n, Server, Start, s, Client, challenge);
    BothTyped(n.(server := s), challenge);
    SameFront(n.server, s);
    ServerCanMixUp(challenge, n.(server := s));
    MisleadLater(n, n.(server := s), challenge);
  }

  lemma MisleadLater(n: Net, n1: Net, challenge: nat)
    requires Leads(n, n1, Client) && CanMislead(n1, challenge)
    ensures CanMislead(n, challenge)
  {
    hide Misled, Continuation;
    FromLeads(n, n1, Client);
    var es :| Continuation(n, es, n1, Client);
    var more, n' :| Continuation(n1, more, n', Client) && Misled(n', challenge);
    RunOn(n, es, n1, more, n', Client);
  }

  lemma EarlyChallengeIsSafe(challenge: nat, n: Net, es: seq<NetEvent>)
    requires challenge < TWO64 && NetInv(n, challenge) && NotBegun(n.server) && n.server.open && n.server.queue != []
    requires !Differ(LE64(challenge), FrontHeader(n.server), 0) && CanRunNet(n, es)
    ensures !Misled(RunNet(n, es), challenge)
  {
    hide Inv, SentInv, CanRunNet, RunNet, LE64, Differ, FrontHeader, NotBegun, SafeWord, Waits, Misled;
    WaitsNow(n.server, LE64(challenge));
    ChallengeComesRun(n, es, challenge);
    ChallengeComesTaken(RunNet(n, es), challenge);
  }

  lemma EarlyServerExact(challenge: nat, n: Net)
    requires challenge < TWO64 && NetInv(n, challenge)
    requires n.server.open && NotBegun(n.server) && n.server.queue != [] && n.client.readOp.ReadingValidation?
    ensures Typed(n.server) && n.server.sentBytes == []
    ensures CanMislead(n, challenge) <==> Differ(LE64(challenge), FrontHeader(n.server), 0)
  {
    NothingOut(n.server);
    hide NetInv, LE64, FrontHeader, Differ, NotBegun;
    if Differ(LE64(challenge), FrontHeader(n.server), 0) {
      EarlyServerCanMixUp(challenge, n);
    } else if CanMislead(n, challenge) {
      var es, n' :| Continuation(n, es, n', Client) && Misled(n', challenge);
      hide CanRunNet, RunNet, GatedAt, Misled;
      EarlyChallengeIsSafe(challenge, n, es);
      assert false;
    }
  }

  /** A closed server, or one that has sent its challenge. */
  lemma LateServerSafe(challenge: nat, n: Net)
    requires challenge < TWO64 && NetReaches(challenge, n, true) && NetInv(n, challenge)
    requires !n.server.open || |n.server.sentBytes| >= HANDSHAKE_BYTES
    ensures !CanMislead(n, challenge)
  {
    BothTyped(n, challenge);
    hide NetReaches, NetInv;
    if CanMislead(n, challenge) {
      var es, n' :| Continuation(n, es, n', Client) && Misled(n', challenge);
      hide CanRunNet, RunNet, GatedAt, Misled;
      ChallengeIsSafe(challenge, n, es);
      assert false;
    }
  }

  /**
   * The server's end, exactly, as for a server that posts from `onClientConnect`: in every state
   * reached under the premise in which the server has messages queued, whether or not it has begun
   * to send its challenge, and the open client waits for it, some order in which the bytes of the
   * server's two writes leave gives the client a wrong challenge if and only if the server is open
   * and some byte of the challenge still to come differs from some byte of the first header that
   * could take its place.
   */
  lemma ServerQueueExact(challenge: nat, n: Net)
    requires challenge < TWO64 && NetReaches(challenge, n, true) && n.server.queue != []
    requires n.client.open && n.client.readOp.ReadingValidation?
    ensures Typed(n.server)
    ensures CanMislead(n, challenge) <==>
            n.server.open && Differ(LE64(challenge), FrontHeader(n.server), |n.server.sentBytes|)
  {
    ReachedInv(challenge, n);
    PhasesReached(challenge, n);
    BothTyped(n, challenge);
    if n.server.answered {
      AnsweredIsOut(n.server);
    }
    hide NetReaches, NetInv, CanMislead, NotBegun, LE64, FrontHeader;
    if n.server.open && NotBegun(n.server) {
      EarlyServerExact(challenge, n);
    } else if BothInFlight(n.server) {
      ServerOrderExact(challenge, n);
    } else {
      LateServerSafe(challenge, n);
    }
  }

  // ---------------------------------------------------------------- the repository's own server

  /** The message the server of the repository posts from `onClientConnect`: kind 0, no payload. */
  const SERVER_ACCEPT: Message := Message(Header(0, 0), 0, [])

  lemma AcceptHeader(c: Conn)
    requires Typed(c) && c.queue != [] && c.queue[0] == SERVER_ACCEPT
    ensures forall t :: 0 <= t < HANDSHAKE_BYTES ==> FrontHeader(c)[t] == 0
  {
    assert LE32(0) == [0, 0, 0, 0];
  }

  /**
   * For that message, posted before the challenge and first in the queue, the order of the two writes
   * matters exactly as long as some byte of the challenge other than 0 has not left.
   */
  lemma AcceptMessageExact(challenge: nat, n: Net)
    requires challenge < TWO64 && NetReaches(challenge, n, true)
    requires n.server.open && n.server.queue != [] && n.server.queue[0] == SERVER_ACCEPT
    requires n.client.open && n.client.readOp.ReadingValidation?
    ensures CanMislead(n, challenge) <==>
            exists p :: |n.server.sentBytes| <= p < HANDSHAKE_BYTES && LE64(challenge)[p] != 0
  {
    ServerQueueExact(challenge, n);
    AcceptHeader(n.server);
    hide NetReaches, CanMislead, LE64, FrontHeader, Typed;
    forall p | |n.server.sentBytes| <= p < HANDSHAKE_BYTES && LE64(challenge)[p] != 0
      ensures Differ(LE64(challenge), FrontHeader(n.server), |n.server.sentBytes|)
    {
      assert LE64(challenge)[p] != FrontHeader(n.server)[0];
    }
  }
}

/**
 * Two writes on one socket. While an end's handshake word is being written its queue may already
 * hold messages, and the code starts both writes without ordering them: exactly when does it matter
 * which bytes leave first?
 */
module Interleaving {
  import opened Arith
  import opened Messages
  import opened Framing
  import opened HandshakeWords
  import opened Connections
  import opened EndToEnd
  import opened PostTiming
  import opened Wrappers

  /** Some continuation in which the client's bytes may leave in any order ends with its rejection. */
  ghost predicate CanReject(n: Net) {
    exists es, n' :: Continuation(n, es, n', Server) && Rejected(n')
  }

  /** Some continuation in which the server's bytes may leave in any order misleads the client. */
  ghost predicate CanMislead(n: Net, challenge: nat) {
    exists es, n' :: Continuation(n, es, n', Client) && Misled(n', challenge)
  }

  predicate Continuation(n: Net, es: seq<NetEvent>, n': Net, gatedAt: Owner) {
    CanRunNet(n, es) && GatedAt(n, es, gatedAt) && RunNet(n, es) == n'
  }

  /** Both words are being written: the handshake word, and the header of the first message queued. */
  predicate BothInFlight(c: Conn) {
    c.validationWrite.Some? && c.queue != []
  }

  /**
   * Among the bytes that can still come to stand in the first eight there are two different ones: a
   * byte of the word from `sent` on, and a byte of the header early enough to take its place.
   */
  predicate Differ(word: seq<byte>, header: seq<byte>, sent: nat)
    requires |word| == HANDSHAKE_BYTES == |header|
  {
    exists p, t :: sent <= p < HANDSHAKE_BYTES && 0 <= t < HANDSHAKE_BYTES - sent && word[p] != header[t]
  }

  /** The first message queued, as it will be written. */
  function FrontHeader(c: Conn): (bytes: seq<byte>)
    requires Typed(c) && c.queue != []
    ensures |bytes| == HANDSHAKE_BYTES
  {
    assert c.queue[0].Valid();
    EncodeHeader(c.queue[0].header)
  }

  // ---------------------------------------------------------------- what is in flight

  /** Under the premise nothing of the message has left while the word is incomplete. */
  lemma InFlight(c: Conn)
    requires Inv(c) && SentInv(c) && BothInFlight(c) && c.open && |c.sentBytes| < HANDSHAKE_BYTES
    ensures c.validationWrite == Some(|c.sentBytes|) && c.writeOp == WritingHeader(0)
    ensures c.handshakeOut < TWO64 && c.sentBytes <= LE64(c.handshakeOut)
  {
    hide LE64, Feed, ReaderInv, HandshakeInv, WireAll, Rest;
  }

  /** Bytes that do not differ cannot be mixed up. */
  lemma NotDiffering(c: Conn)
    requires Inv(c) && SentInv(c) && BothInFlight(c) && c.open && |c.sentBytes| < HANDSHAKE_BYTES
    requires !Differ(LE64(c.handshakeOut), FrontHeader(c), |c.sentBytes|)
    ensures Typed(c) && CannotMix(c)
  {
    InFlight(c);
    TypedOfInv(c);
    hide Inv, SentInv, LE64, EncodeHeader;
  }

  // ---------------------------------------------------------------- mixing them up

  /** What is sent if `i` more bytes of the word leave first and then the message takes over. */
  function Mixed(word: seq<byte>, header: seq<byte>, sent: nat, i: nat): (bytes: seq<byte>)
    requires |word| == HANDSHAKE_BYTES == |header| && sent + i <= HANDSHAKE_BYTES
    ensures |bytes| == HANDSHAKE_BYTES
  {
    word[..sent + i] + header[..HANDSHAKE_BYTES - sent - i]
  }

  lemma MixedAt(word: seq<byte>, header: seq<byte>, sent: nat, i: nat, x: nat)
    requires |word| == HANDSHAKE_BYTES == |header| && sent + i <= x < HANDSHAKE_BYTES
    ensures Mixed(word, header, sent, i)[x] == header[x - sent - i]
  {
  }

  /** If some bytes differ, some order of sending gives a wrong word. */
  lemma WrongOrder(word: seq<byte>, header: seq<byte>, sent: nat) returns (i: nat)
    requires |word| == HANDSHAKE_BYTES == |header| && Differ(word, header, sent)
    ensures sent + i < HANDSHAKE_BYTES && Mixed(word, header, sent, i) != word
  {
    var p, t :| sent <= p < HANDSHAKE_BYTES && 0 <= t < HANDSHAKE_BYTES - sent && word[p] != header[t];
    hide Mixed, Differ;
    if word[sent + t] != header[t] {
      i := 0;
      MixedAt(word, header, sent, 0, sent + t);
    } else if word[p] != header[0] {
      i := p - sent;
      MixedAt(word, header, sent, i, p);
    } else {
      i := t;
      MixedAt(word, header, sent, i, sent + t);
    }
  }

  /** `i` bytes of the word and then the message: one end. */
  lemma MixUp(c: Conn, i: nat) returns (c1: Conn, c2: Conn)
    requires Inv(c) && SentInv(c) && BothInFlight(c) && c.open && |c.sentBytes| + i < HANDSHAKE_BYTES
    ensures c.handshakeOut < TWO64 && Typed(c)
    ensures var k, bytes := HANDSHAKE_BYTES - |c.sentBytes| - i, Mixed(LE64(c.handshakeOut), FrontHeader(c), |c.sentBytes|, i);
            && Enabled(c, SendValidation(i)) && c1 == Step(c, SendValidation(i))
            && Typed(c1) && Enabled(c1, SendMessage(k)) && c2 == Step(c1, SendMessage(k)) && Inv(c2)
            && c2 == c.(validationWrite := c2.validationWrite, writeOp := c2.writeOp, sentBytes := bytes)
  {
    InFlight(c);
    TypedOfInv(c);
    var j, k := |c.sentBytes|, HANDSHAKE_BYTES - |c.sentBytes| - i;
    c1 := WordLeaves(c, i);
    hide Inv, SentInv, Typed, Step, Enabled, LE64, EncodeHeader;
    HeaderLeaves(c1, k);
    c2 := Step(c1, SendMessage(k));
    WordThenHeader(LE64(c.handshakeOut), c.sentBytes, i);
  }

  lemma WordThenHeader(word: seq<byte>, sent: seq<byte>, i: nat)
    requires sent <= word && |sent| + i <= |word|
    ensures sent + word[|sent|..|sent| + i] == word[..|sent| + i]
  {
  }

  lemma WordLeaves(c: Conn, i: nat) returns (c1: Conn)
    requires Inv(c) && c.open && c.validationWrite.Some? && c.validationWrite.value + i <= HANDSHAKE_BYTES
    ensures Typed(c) && Enabled(c, SendValidation(i)) && c1 == Step(c, SendValidation(i)) && Inv(c1)
    ensures var v := c.validationWrite.value;
            c1 == c.(validationWrite := Some(v + i), sentBytes := c.sentBytes + LE64(c.handshakeOut)[v..v + i])
  {
    hide LE64, ReaderInv, ChainInv;
    InvStep(c, SendValidation(i));
    c1 := Step(c, SendValidation(i));
  }

  /** The same at one end of two. */
  lemma MixUpLeads(n: Net, owner: Owner, i: nat) returns (c: Conn)
    requires var e := n.End(owner); Inv(e) && SentInv(e) && BothInFlight(e) && e.open && |e.sentBytes| + i < HANDSHAKE_BYTES
    ensures var e := n.End(owner);
            && e.handshakeOut < TWO64 && Typed(e) && Inv(c) && Leads(n, n.With(owner, c), Other(owner))
            && c == e.(validationWrite := c.validationWrite, writeOp := c.writeOp, sentBytes := c.sentBytes)
            && c.sentBytes == Mixed(LE64(e.handshakeOut), FrontHeader(e), |e.sentBytes|, i)
  {
    var e := n.End(owner);
    var c1, c2 := MixUp(e, i);
    c := c2;
    hide Leads, Inv, SentInv, Step, Enabled, Typed, LE64, Mixed, FrontHeader;
    LeadsNowhere(n, Other(owner));
    LeadsAt(n, n, owner, SendValidation(i), c1, Other(owner));
    LeadsAt(n, n.With(owner, c1), owner, SendMessage(HANDSHAKE_BYTES - |e.sentBytes| - i), c2, Other(owner));
  }

  /** Whatever part of the word was read, mixing begins behind it. */
  lemma MixedBegins(word: seq<byte>, header: seq<byte>, sent: seq<byte>, i: nat, received: seq<byte>)
    requires |word| == HANDSHAKE_BYTES == |header| && |sent| + i <= HANDSHAKE_BYTES && sent <= word && received <= sent
    ensures received <= Mixed(word, header, |sent|, i)
  {
  }

  lemma OtherWord(bytes: seq<byte>, word: nat)
    requires |bytes| == HANDSHAKE_BYTES && word < TWO64 && bytes != LE64(word)
    ensures FromLE64(bytes) != word
  {
    hide LE64, FromLE64;
    LE64OfFromLE64(bytes);
  }

  // ---------------------------------------------------------------- the client's end

  lemma ClientCanMixUp(challenge: nat, n: Net)
    requires challenge < TWO64 && NetInv(n, challenge) && BothInFlight(n.client) && n.client.open
    requires n.server.open && n.server.readOp.ReadingValidation?
    requires |n.client.sentBytes| < HANDSHAKE_BYTES
    requires Differ(LE64(EncryptWord(challenge)), FrontHeader(n.client), |n.client.sentBytes|)
    ensures CanReject(n)
  {
    ClientWord(n, challenge);
    InFlight(n.client);
    hide LE64, FromLE64, EncryptWord, Inv, SentInv, FrontHeader, Differ;
    var word := LE64(EncryptWord(challenge));
    var i := WrongOrder(word, FrontHeader(n.client), |n.client.sentBytes|);
    var c := MixUpLeads(n, Client, i);
    OtherWord(c.sentBytes, EncryptWord(challenge));
    MixedBegins(word, FrontHeader(n.client), n.client.sentBytes, i, n.server.receivedBytes);
    var n' := AnswerIsRejected(challenge, n, n.(client := c), c.sentBytes, Server);
    FromLeads(n, n', Server);
  }

  lemma FromLeads(n: Net, n': Net, gatedAt: Owner)
    requires Leads(n, n', gatedAt)
    ensures exists es :: Continuation(n, es, n', gatedAt)
  {
    var es :| CanRunNet(n, es) && RunNet(n, es) == n' && GatedAt(n, es, gatedAt);
    hide CanRunNet, RunNet, GatedAt;
    assert Continuation(n, es, n', gatedAt);
  }

  lemma ClientCannotMix(challenge: nat, n: Net)
    requires challenge < TWO64 && NetInv(n, challenge) && BothInFlight(n.client) && n.client.open
    requires |n.client.sentBytes| < HANDSHAKE_BYTES
    requires !Differ(LE64(EncryptWord(challenge)), FrontHeader(n.client), |n.client.sentBytes|)
    ensures CannotMix(n.client)
  {
    ClientWord(n, challenge);
    hide LE64, EncryptWord, Inv, SentInv, FrontHeader, Differ, CannotMix;
    NotDiffering(n.client);
  }

  /**
   * The client's end, exactly: in every state reached under the premise in which the client has
   * messages queued while its answer is being written, and the open server waits for the answer,
   * some order in which the bytes of both writes leave gets the client rejected if and only if the
   * client is open and some byte of the answer still to come differs from some byte of the first
   * header that could come to stand in the answer.
   */
  lemma ClientOrderExact(challenge: nat, n: Net)
    requires challenge < TWO64 && NetReaches(challenge, n, true) && BothInFlight(n.client)
    requires n.server.open && n.server.readOp.ReadingValidation?
    ensures Typed(n.client)
    ensures CanReject(n) <==>
            n.client.open && Differ(LE64(EncryptWord(challenge)), FrontHeader(n.client), |n.client.sentBytes|)
  {
    ReachedInv(challenge, n);
    BothTyped(n, challenge);
    hide NetInv, LE64, EncryptWord, FrontHeader, CannotMix, NetReaches;
    if n.client.open && |n.client.sentBytes| < HANDSHAKE_BYTES {
      if Differ(LE64(EncryptWord(challenge)), FrontHeader(n.client), |n.client.sentBytes|) {
        ClientCanMixUp(challenge, n);
        return;
      }
      ClientCannotMix(challenge, n);
    }
    if CanReject(n) {
      var es, n' :| Continuation(n, es, n', Server) && Rejected(n');
      hide CanRunNet, RunNet, Rejected, GatedAt;
      AnswerIsSafe(challenge, n, es);
      assert false;
    }
  }

  lemma BothTyped(n: Net, challenge: nat)
    requires challenge < TWO64 && NetInv(n, challenge)
    ensures Typed(n.server) && Typed(n.client)
  {
  }

  // ---------------------------------------------------------------- the server's end

  lemma ServerCanMixUp(challenge: nat, n: Net)
    requires challenge < TWO64 && NetInv(n, challenge) && BothInFlight(n.server) && n.server.open
    requires n.client.readOp.ReadingValidation? && |n.server.sentBytes| < HANDSHAKE_BYTES
    requires Differ(LE64(challenge), FrontHeader(n.server), |n.server.sentBytes|)
    ensures CanMislead(n, challenge)
  {
    InFlight(n.server);
    hide LE64, FromLE64, EncryptWord, Inv, SentInv, FrontHeader, Differ;
    var word := LE64(challenge);
    var i := WrongOrder(word, FrontHeader(n.server), |n.server.sentBytes|);
    var s := MixUpLeads(n, Server, i);
    OtherWord(s.sentBytes, challenge);
    MixedBegins(word, FrontHeader(n.server), n.server.sentBytes, i, n.client.receivedBytes);
    var n' := ClientIsMisled(challenge, n, s);
    FromLeads(n, n', Client);
  }

  /** The client takes the eight bytes the server has sent. */
  lemma ClientIsMisled(challenge: nat, n: Net, s: Conn) returns (n': Net)
    requires challenge < TWO64 && Leads(n, n.With(Server, s), Client)
    requires Inv(n.client) && SentInv(n.client) && n.client.owner == Client && n.client.readOp.ReadingValidation?
    requires |s.sentBytes| == HANDSHAKE_BYTES && n.client.receivedBytes <= s.sentBytes && FromLE64(s.sentBytes) != challenge
    ensures Leads(n, n', Client) && Misled(n', challenge)
  {
    hide LE64, FromLE64, EncryptWord, Leads;
    var c := ClientMisreads(n.client, s.sentBytes);
    hide Inv, SentInv, Step, Enabled, Typed;
    LeadsAt(n, n.With(Server, s), Client, Receive(s.sentBytes[|n.client.receivedBytes|..]), c, Client);
    n' := Net(s, c);
  }

  lemma ServerCannotMix(challenge: nat, n: Net)
    requires challenge < TWO64 && NetInv(n, challenge) && BothInFlight(n.server) && n.server.open
    requires |n.server.sentBytes| < HANDSHAKE_BYTES
    requires !Differ(LE64(challenge), FrontHeader(n.server), |n.server.sentBytes|)
    ensures CannotMix(n.server)
  {
    hide LE64, Inv, SentInv, FrontHeader, Differ, CannotMix;
    NotDiffering(n.server);
  }

  /**
   * The server's end, exactly, as for a server that posts from `onClientConnect`: in every state
   * reached under the premise in which the server has messages queued while its challenge is being
   * written, and the open client waits for it, some order in which the bytes of both writes leave
   * gives the client a wrong challenge if and only if the server is open and some byte of the
   * challenge still to come differs from some byte of the first header that could take its place.
   */
  lemma ServerOrderExact(challenge: nat, n: Net)
    requires challenge < TWO64 && NetReaches(challenge, n, true) && BothInFlight(n.server)
    requires n.client.open && n.client.readOp.ReadingValidation?
    ensures Typed(n.server)
    ensures CanMislead(n, challenge) <==>
            n.server.open && Differ(LE64(challenge), FrontHeader(n.server), |n.server.sentBytes|)
  {
    ReachedInv(challenge, n);
    BothTyped(n, challenge);
    hide NetInv, LE64, FrontHeader, CannotMix, NetReaches;
    if n.server.open && |n.server.sentBytes| < HANDSHAKE_BYTES {
      if Differ(LE64(challenge), FrontHeader(n.server), |n.server.sentBytes|) {
        ServerCanMixUp(challenge, n);
        return;
      }
      ServerCannotMix(challenge, n);
    }
    if CanMislead(n, challenge) {
      var es, n' :| Continuation(n, es, n', Client) && Misled(n', challenge);
      hide CanRunNet, RunNet, Misled, GatedAt;
      ChallengeIsSafe(challenge, n, es);
      assert false;
    }
  }

  /** Such states are reached: the post first, then the handshake, with any number of its bytes sent. */
  lemma ReachBothInFlight(challenge: nat, m: Message, k: nat) returns (n: Net)
    requires challenge < TWO64 && WellFormed(m) && k <= HANDSHAKE_BYTES
    ensures NetReaches(challenge, n, true) && n.server.open && n.client.open
    ensures BothInFlight(n.server) && n.server.queue == [m] && |n.server.sentBytes| == k
    ensures n.client.readOp.ReadingValidation?
  {
    var n0 := Initial(challenge);
    ReachesInitial(challenge);
    var s1, s2, s3 := PostThenChallenge(challenge, m, k);
    var c1 := ClientStarts(challenge);
    n := Net(s3, c1);
    hide EncryptWord, NetReaches, FromLE64, LE64, Fresh, Step, Typed, Enabled;
    NetReachesStep(challenge, n0, At(Server, Post(m)), true);
    NetReachesStep(challenge, Net(s1, n0.client), At(Server, Start), true);
    NetReachesStep(challenge, Net(s2, n0.client), At(Server, SendValidation(k)), true);
    NetReachesStep(challenge, Net(s3, n0.client), At(Client, Start), true);
  }

  lemma PostThenChallenge(challenge: nat, m: Message, k: nat) returns (s1: Conn, s2: Conn, s3: Conn)
    requires challenge < TWO64 && WellFormed(m) && k <= HANDSHAKE_BYTES
    ensures var s0 := Fresh(Server, challenge);
            && Typed(s0) && Enabled(s0, Post(m)) && s1 == Step(s0, Post(m))
            && Typed(s1) && Enabled(s1, Start) && s2 == Step(s1, Start)
            && Typed(s2) && Enabled(s2, SendValidation(k)) && s3 == Step(s2, SendValidation(k))
            && s3.open && s3.validationWrite.Some? && s3.queue == [m] && |s3.sentBytes| == k
  {
    var s0 := Fresh(Server, challenge);
    hide EncryptWord, FromLE64, LE64, Feed, EncodeHeader, SentPayload;
    FreshInv(Server, challenge);
    PostEffect(s0, m);
    s1 := Step(s0, Post(m));
    s2 := Step(s1, Start);
    StartKeeps(s1);
    hide Inv;
    s3 := Step(s2, SendValidation(k));
  }
}

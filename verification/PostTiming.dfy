/**
 * When a message may leave. `SendData` does not wait for the handshake: a message posted too early
 * can end up in front of, or inside, the handshake word of its own end. Here is exactly when.
 */
module PostTiming {
  import opened Arith
  import opened Messages
  import opened Framing
  import opened HandshakeWords
  import opened Connections
  import opened EndToEnd
  import opened Wrappers

  /** The server has read an answer, found it wrong and closed. */
  predicate Rejected(n: Net) {
    |n.server.receivedBytes| >= HANDSHAKE_BYTES && n.server.validated == 0 && !n.server.open
  }

  /** The client has taken something else for the challenge. */
  predicate Misled(n: Net, challenge: nat) {
    |n.client.receivedBytes| >= HANDSHAKE_BYTES && n.client.handshakeIn != challenge
  }

  /** One of the two ends keeps the premise. */
  predicate GatedAt(n: Net, es: seq<NetEvent>, owner: Owner)
    requires CanRunNet(n, es)
    decreases |es|
  {
    es != [] ==> (es[0].owner == owner ==> Gated(n, es[0])) && GatedAt(NetStep(n, es[0]), es[1..], owner)
  }

  /** A well-formed message posted now at `owner`, and a continuation in which the other end keeps the premise. */
  predicate AfterPost(n: Net, owner: Owner, m: Message, es: seq<NetEvent>, n': Net) {
    var all := [At(owner, Post(m))] + es;
    WellFormed(m) && CanRunNet(n, all) && GatedAt(n, all, Other(owner)) && RunNet(n, all) == n'
  }

  /** A post at `owner` can now make the server reject the client. */
  ghost predicate PostCanReject(n: Net, owner: Owner) {
    exists m, es, n' :: AfterPost(n, owner, m, es, n') && Rejected(n')
  }

  /** A post at the server can now mislead the client. */
  ghost predicate PostCanMislead(n: Net, challenge: nat) {
    exists m, es, n' :: AfterPost(n, Server, m, es, n') && Misled(n', challenge)
  }

  // ---------------------------------------------------------------- a message in place of a word

  /** A message whose header continues `sent` to the eight bytes of `target`. */
  function Intruder(sent: nat, target: seq<byte>): (m: Message)
    requires sent < HANDSHAKE_BYTES == |target|
    ensures WellFormed(m)
  {
    var h := DecodeHeader(target[sent..] + Zeros(sent));
    Message(h, h.size, Zeros(4 * h.size))
  }

  lemma IntruderHeader(sent: nat, target: seq<byte>)
    requires sent < HANDSHAKE_BYTES == |target|
    ensures EncodeHeader(Intruder(sent, target).header)[..HANDSHAKE_BYTES - sent] == target[sent..]
  {
    hide EncodeHeader, DecodeHeader;
    EncodeDecode(target[sent..] + Zeros(sent));
  }

  /** An end that has not sent its whole word and posts such a message sends `target` instead. */
  lemma Intrude(c: Conn, target: seq<byte>) returns (c1: Conn, c2: Conn)
    requires Inv(c) && c.open && c.queue == [] && |c.sentBytes| < HANDSHAKE_BYTES == |target| && c.sentBytes <= target
    ensures var m, k := Intruder(|c.sentBytes|, target), HANDSHAKE_BYTES - |c.sentBytes|;
            && Typed(c) && Enabled(c, Post(m)) && c1 == Step(c, Post(m))
            && Typed(c1) && Enabled(c1, SendMessage(k)) && c2 == Step(c1, SendMessage(k)) && Inv(c2)
            && c2 == c.(queue := [m], writeOp := WritingHeader(k), posted := c.posted + [m], sentBytes := target)
  {
    var m, k := Intruder(|c.sentBytes|, target), HANDSHAKE_BYTES - |c.sentBytes|;
    hide Intruder, Inv, Typed, Step, Enabled, Outgoing, EncodeHeader;
    TypedOfInv(c);
    PostEffect(c, m);
    c1 := Step(c, Post(m));
    TypedOfInv(c1);
    assert c.queue + [m] == [m];
    IntruderHeader(|c.sentBytes|, target);
    HeaderLeaves(c1, k);
    c2 := Step(c1, SendMessage(k));
    assert c.sentBytes + target[|c.sentBytes|..] == target;
  }

  /** Bytes of a header leave. */
  lemma HeaderLeaves(c: Conn, k: nat)
    requires Inv(c) && c.open && c.queue != [] && c.writeOp == WritingHeader(0) && k <= HEADER_BYTES
    ensures Typed(c) && Enabled(c, SendMessage(k)) && Inv(Step(c, SendMessage(k)))
    ensures Step(c, SendMessage(k)) ==
            c.(writeOp := WritingHeader(k), sentBytes := c.sentBytes + EncodeHeader(c.queue[0].header)[..k])
  {
    hide EncodeHeader, ReaderInv, HandshakeInv, LE64;
    assert Outgoing(c.queue, c.writeOp) == EncodeHeader(c.queue[0].header);
    assert EncodeHeader(c.queue[0].header)[0..0 + k] == EncodeHeader(c.queue[0].header)[..k];
    hide Outgoing;
    InvStep(c, SendMessage(k));
  }

  /** Eight bytes that begin with `sent` but are not `right`. */
  function WrongWord(sent: seq<byte>, right: seq<byte>): (word: seq<byte>)
    requires |sent| < HANDSHAKE_BYTES == |right|
    ensures |word| == HANDSHAKE_BYTES && sent <= word && word[|sent|] != right[|sent|]
  {
    sent + [if right[|sent|] == 0 then 1 else 0] + Zeros(HANDSHAKE_BYTES - 1 - |sent|)
  }

  lemma WrongWordIsWrong(sent: seq<byte>, right: nat)
    requires |sent| < HANDSHAKE_BYTES && right < TWO64
    ensures FromLE64(WrongWord(sent, LE64(right))) != right
  {
    hide LE64, FromLE64;
    LE64OfFromLE64(WrongWord(sent, LE64(right)));
  }

  // ---------------------------------------------------------------- continuations

  ghost predicate Leads(n: Net, n': Net, gatedAt: Owner) {
    exists es :: CanRunNet(n, es) && RunNet(n, es) == n' && GatedAt(n, es, gatedAt)
  }

  lemma LeadsNowhere(n: Net, gatedAt: Owner)
    ensures Leads(n, n, gatedAt)
  {
    assert CanRunNet(n, []) && RunNet(n, []) == n && GatedAt(n, [], gatedAt);
  }

  lemma {:induction false} GatedAtExtend(n: Net, es: seq<NetEvent>, ne: NetEvent, gatedAt: Owner)
    requires CanRunNet(n, es) && GatedAt(n, es, gatedAt)
    requires NetEnabled(RunNet(n, es), ne) && (ne.owner == gatedAt ==> Gated(RunNet(n, es), ne))
    ensures CanRunNet(n, es + [ne]) && RunNet(n, es + [ne]) == NetStep(RunNet(n, es), ne)
    ensures GatedAt(n, es + [ne], gatedAt)
    decreases |es|
  {
    NetExtend(n, es, ne);
    if es == [] {
      assert [ne][1..] == [];
      assert [] + [ne] == [ne];
    } else {
      hide NetStep, NetEnabled, Gated;
      GatedAtExtend(NetStep(n, es[0]), es[1..], ne, gatedAt);
      assert (es + [ne])[0] == es[0] && (es + [ne])[1..] == es[1..] + [ne];
    }
  }

  lemma LeadsStep(n: Net, n': Net, ne: NetEvent, gatedAt: Owner)
    requires Leads(n, n', gatedAt) && NetEnabled(n', ne) && (ne.owner == gatedAt ==> Gated(n', ne))
    ensures Leads(n, NetStep(n', ne), gatedAt)
  {
    var es :| CanRunNet(n, es) && RunNet(n, es) == n' && GatedAt(n, es, gatedAt);
    hide NetStep, NetEnabled, Gated;
    GatedAtExtend(n, es, ne, gatedAt);
  }

  /** One step of one end. */
  lemma LeadsAt(n: Net, n': Net, owner: Owner, e: Event, c: Conn, gatedAt: Owner)
    requires Leads(n, n', gatedAt) && EndEnabled(n'.End(owner), n'.End(Other(owner)), e)
    requires c == Step(n'.End(owner), e) && (owner == gatedAt ==> GatedEnd(n'.End(owner), e))
    ensures Leads(n, n'.With(owner, c), gatedAt)
  {
    hide Leads, Step, EndEnabled, GatedEnd;
    LeadsStep(n, n', At(owner, e), gatedAt);
  }

  /** A post and then a continuation. */
  lemma PostLeads(n: Net, owner: Owner, m: Message, n': Net) returns (es: seq<NetEvent>)
    requires WellFormed(m) && NetEnabled(n, At(owner, Post(m)))
    requires Leads(NetStep(n, At(owner, Post(m))), n', Other(owner))
    ensures AfterPost(n, owner, m, es, n')
  {
    hide NetStep, NetEnabled, Gated;
    var n1 := NetStep(n, At(owner, Post(m)));
    es :| CanRunNet(n1, es) && RunNet(n1, es) == n' && GatedAt(n1, es, Other(owner));
    assert ([At(owner, Post(m))] + es)[1..] == es;
  }

  /** The same at one end of two. */
  lemma IntrudeLeads(n: Net, owner: Owner, target: seq<byte>) returns (c: Conn)
    requires Inv(n.End(owner)) && n.End(owner).open && n.End(owner).queue == []
    requires |n.End(owner).sentBytes| < HANDSHAKE_BYTES == |target| && n.End(owner).sentBytes <= target
    ensures var post := At(owner, Post(Intruder(|n.End(owner).sentBytes|, target)));
            NetEnabled(n, post) && Leads(NetStep(n, post), n.With(owner, c), Other(owner))
    ensures Inv(c) && c.sentBytes == target
    ensures c == n.End(owner).(queue := c.queue, writeOp := c.writeOp, posted := c.posted, sentBytes := target)
  {
    var k := HANDSHAKE_BYTES - |n.End(owner).sentBytes|;
    var c1, c2 := Intrude(n.End(owner), target);
    c := c2;
    hide Leads, Inv, Step, Enabled, Typed, Intruder;
    var n1 := n.With(owner, c1);
    LeadsNowhere(n1, Other(owner));
    LeadsAt(n1, n1, owner, SendMessage(k), c2, Other(owner));
  }

  // ---------------------------------------------------------------- a word that is safe

  /** From here on it makes no difference whether bytes of the word or of the header leave first. */
  ghost predicate Alike(word: seq<byte>, header: seq<byte>, v: nat, s: nat)
    requires |word| == HANDSHAKE_BYTES == |header|
  {
    forall p, t :: v <= p < HANDSHAKE_BYTES && s <= t < HANDSHAKE_BYTES - v ==> word[p] == header[t]
  }

  /** Word and header are both in flight, and it makes no difference which of them leaves first. */
  ghost predicate CannotMix(c: Conn)
    requires Typed(c)
  {
    && c.validationWrite.Some? && c.writeOp.WritingHeader?
    && c.validationWrite.value + c.writeOp.sent == |c.sentBytes|
    && Alike(LE64(c.handshakeOut), HeaderOf(c), c.validationWrite.value, c.writeOp.sent)
  }

  function HeaderOf(c: Conn): (bytes: seq<byte>)
    requires Typed(c) && c.writeOp.WritingHeader?
    ensures |bytes| == HANDSHAKE_BYTES
  {
    assert c.queue[0].Valid();
    EncodeHeader(c.queue[0].header)
  }

  /** What was sent begins `word`, and no other first eight bytes can follow. */
  ghost predicate SafeWord(c: Conn, word: seq<byte>)
    requires Typed(c)
  {
    && |word| == HANDSHAKE_BYTES && WordPart(c.sentBytes) <= word
    && (c.open && |c.sentBytes| < HANDSHAKE_BYTES ==> CannotMix(c) && LE64(c.handshakeOut) == word)
  }

  lemma MixedWord(sent: seq<byte>, word: seq<byte>, header: seq<byte>, v: nat, s: nat, k: nat)
    requires |word| == HANDSHAKE_BYTES == |header| && Alike(word, header, v, s)
    requires |sent| == v + s < HANDSHAKE_BYTES && sent <= word && v + k <= HANDSHAKE_BYTES
    ensures WordPart(sent + word[v..v + k]) <= word && Alike(word, header, v + k, s)
  {
    var sent' := sent + word[v..v + k];
    forall x | 0 <= x < |WordPart(sent')|
      ensures WordPart(sent')[x] == word[x]
    {
      if x >= |sent| {
        assert sent'[x] == word[v..v + k][x - |sent|] == word[x - s];
        assert word[x - s] == header[s] == word[x];
      }
    }
  }

  lemma MixedHeader(sent: seq<byte>, word: seq<byte>, header: seq<byte>, v: nat, s: nat, k: nat)
    requires |word| == HANDSHAKE_BYTES == |header| && Alike(word, header, v, s)
    requires |sent| == v + s < HANDSHAKE_BYTES && sent <= word && s + k <= HANDSHAKE_BYTES
    ensures WordPart(sent + header[s..s + k]) <= word && Alike(word, header, v, s + k)
  {
    var sent' := sent + header[s..s + k];
    forall x | 0 <= x < |WordPart(sent')|
      ensures WordPart(sent')[x] == word[x]
    {
      if x >= |sent| {
        assert sent'[x] == header[s..s + k][x - |sent|] == header[x - v];
      }
    }
  }

  /** No step, under the premise or not, makes a safe word unsafe. */
  lemma SafeWordStep(c: Conn, e: Event, word: seq<byte>)
    requires Inv(c) && Enabled(c, e) && SafeWord(c, word)
    ensures Inv(Step(c, e)) && SafeWord(Step(c, e), word)
  {
    TypedOfInv(c);
    InvStep(c, e);
    TypedOfInv(Step(c, e));
    hide Inv, Typed, LE64;
    if !c.open {
      ClosedIsSilent(c, e);
    } else if |c.sentBytes| >= HANDSHAKE_BYTES {
      StepHistory(c, e);
      hide Step, Enabled;
      SamePart(c.sentBytes, Step(c, e).sentBytes);
    } else {
      hide Step, SafeWord, Enabled;
      MixingStep(c, e, word);
    }
  }

  lemma SamePart(sent: seq<byte>, sent': seq<byte>)
    requires sent <= sent' && |sent| >= HANDSHAKE_BYTES
    ensures WordPart(sent') == WordPart(sent)
  {
  }

  lemma MixingStep(c: Conn, e: Event, word: seq<byte>)
    requires Inv(c) && Enabled(c, e) && SafeWord(c, word) && c.open && |c.sentBytes| < HANDSHAKE_BYTES
    ensures Typed(Step(c, e)) && SafeWord(Step(c, e), word)
  {
    TypedOfInv(c);
    hide Inv, Typed, Step, LE64, HeaderOf, Alike;
    match e
    case Start => NotBoth(c, e);
    case SendValidation(k) => MixSendWord(c, k, word);
    case ValidationSent(ok) => NotBoth(c, e); MixValidationSent(c, ok, word);
    case Post(m) => MixPost(c, m, word);
    case SendMessage(k) => MixSendHeader(c, k, word);
    case MessageSent(ok) => NotBoth(c, e); MixMessageSent(c, ok, word);
    case Receive(bytes) => MixReceive(c, bytes, word);
    case ReadFailed => MixClosed(c, e, word);
    case Disconnect => MixClosed(c, e, word);
  }

  /** With both writes in flight and unfinished some events are not possible. */
  lemma NotBoth(c: Conn, e: Event)
    requires Inv(c) && Enabled(c, e) && CannotMix(c) && |c.sentBytes| < HANDSHAKE_BYTES
    ensures c.started && !e.Start?
    ensures e.ValidationSent? ==> !e.ok
    ensures e.MessageSent? ==> !e.ok
    ensures e.Receive? ==> c.owner == Server
  {
    hide LE64, FromLE64, EncryptWord, Feed, ReaderInv, EncodeHeader, Alike;
  }

  lemma MixSendWord(c: Conn, k: nat, word: seq<byte>)
    requires Inv(c) && Enabled(c, SendValidation(k)) && SafeWord(c, word) && c.open && |c.sentBytes| < HANDSHAKE_BYTES
    ensures Typed(Step(c, SendValidation(k))) && SafeWord(Step(c, SendValidation(k)), word)
  {
    InvStep(c, SendValidation(k));
    MixedWord(c.sentBytes, word, HeaderOf(c), c.validationWrite.value, c.writeOp.sent, k);
    hide LE64, HandshakeInv, ReaderInv, ChainInv, Alike, EncodeHeader;
  }

  lemma MixSendHeader(c: Conn, k: nat, word: seq<byte>)
    requires Inv(c) && Enabled(c, SendMessage(k)) && SafeWord(c, word) && c.open && |c.sentBytes| < HANDSHAKE_BYTES
    ensures Typed(Step(c, SendMessage(k))) && SafeWord(Step(c, SendMessage(k)), word)
  {
    InvStep(c, SendMessage(k));
    MixedHeader(c.sentBytes, word, HeaderOf(c), c.validationWrite.value, c.writeOp.sent, k);
    hide LE64, HandshakeInv, ReaderInv, ChainInv, Alike, EncodeHeader;
  }

  /** The writes and the front message are as they were, or the connection is closed. */
  lemma MixKept(c: Conn, c': Conn, word: seq<byte>)
    requires Typed(c) && Typed(c') && SafeWord(c, word) && c.open && |c.sentBytes| < HANDSHAKE_BYTES
    requires c'.sentBytes == c.sentBytes
    requires c'.open ==> c'.validationWrite == c.validationWrite && c'.writeOp == c.writeOp
                         && c'.handshakeOut == c.handshakeOut && c.queue <= c'.queue
    ensures SafeWord(c', word)
  {
    hide LE64, EncodeHeader, Alike;
  }

  lemma MixValidationSent(c: Conn, ok: bool, word: seq<byte>)
    requires Inv(c) && Enabled(c, ValidationSent(ok)) && SafeWord(c, word) && c.open && |c.sentBytes| < HANDSHAKE_BYTES && !ok
    ensures Typed(Step(c, ValidationSent(ok))) && SafeWord(Step(c, ValidationSent(ok)), word)
  {
    TypedOfInv(c);
    hide Inv, Step, Enabled, Typed, SafeWord;
    ValidationSentEffect(c, ok);
    TypedOfInv(Step(c, ValidationSent(ok)));
    MixKept(c, Step(c, ValidationSent(ok)), word);
  }

  lemma MixMessageSent(c: Conn, ok: bool, word: seq<byte>)
    requires Inv(c) && Enabled(c, MessageSent(ok)) && SafeWord(c, word) && c.open && |c.sentBytes| < HANDSHAKE_BYTES && !ok
    ensures Typed(Step(c, MessageSent(ok))) && SafeWord(Step(c, MessageSent(ok)), word)
  {
    TypedOfInv(c);
    hide Inv, Step, Enabled, Typed, SafeWord;
    MessageSentEffect(c, ok);
    TypedOfInv(Step(c, MessageSent(ok)));
    MixKept(c, Step(c, MessageSent(ok)), word);
  }

  lemma MixPost(c: Conn, m: Message, word: seq<byte>)
    requires Inv(c) && Enabled(c, Post(m)) && SafeWord(c, word) && c.open && |c.sentBytes| < HANDSHAKE_BYTES
    ensures Typed(Step(c, Post(m))) && SafeWord(Step(c, Post(m)), word)
  {
    TypedOfInv(c);
    assert c.queue != [];
    hide Inv, Step, Typed, SafeWord;
    PostEffect(c, m);
    TypedOfInv(Step(c, Post(m)));
    MixKept(c, Step(c, Post(m)), word);
  }

  lemma MixReceive(c: Conn, bytes: seq<byte>, word: seq<byte>)
    requires Inv(c) && Enabled(c, Receive(bytes)) && SafeWord(c, word) && c.open && |c.sentBytes| < HANDSHAKE_BYTES
    ensures Typed(Step(c, Receive(bytes))) && SafeWord(Step(c, Receive(bytes)), word)
  {
    TypedOfInv(c);
    NotBoth(c, Receive(bytes));
    WhatArrives(c, bytes);
    InvStep(c, Receive(bytes));
    TypedOfInv(Step(c, Receive(bytes)));
    hide Inv, Step, Enabled, Typed, SafeWord;
    if c.readOp.ReadingMessage? {
      MessageBytes(c, bytes);
    } else if |c.readOp.got| + |bytes| < HANDSHAKE_BYTES {
      PartialWord(c, bytes);
    } else {
      AnswerEffect(c, bytes);
    }
    MixKept(c, Step(c, Receive(bytes)), word);
  }

  lemma MixClosed(c: Conn, e: Event, word: seq<byte>)
    requires Inv(c) && Enabled(c, e) && SafeWord(c, word) && c.open && |c.sentBytes| < HANDSHAKE_BYTES
    requires e.ReadFailed? || e.Disconnect?
    ensures Typed(Step(c, e)) && SafeWord(Step(c, e), word)
  {
    TypedOfInv(c);
    InvStep(c, e);
    TypedOfInv(Step(c, e));
    ClosingEffect(c, e);
    hide Inv, Typed, Step, Enabled, SafeWord;
    MixKept(c, Step(c, e), word);
  }

  // ---------------------------------------------------------------- the client's end

  /** A client's message can replace what is missing of its answer. */
  lemma ClientCanBreak(challenge: nat, n: Net)
    requires challenge < TWO64 && NetInv(n, challenge)
    requires n.client.open && n.client.queue == [] && |n.client.sentBytes| < HANDSHAKE_BYTES
    requires n.server.readOp.ReadingValidation?
    ensures PostCanReject(n, Client)
  {
    hide LE64, FromLE64, EncryptWord, WrongWord, SentInv, Inv, Intruder;
    var sent := n.client.sentBytes;
    var target := WrongWord(sent, LE64(EncryptWord(challenge)));
    WrongWordIsWrong(sent, EncryptWord(challenge));
    var c := IntrudeLeads(n, Client, target);
    var n1 := NetStep(n, At(Client, Post(Intruder(|sent|, target))));
    var n3 := AnswerIsRejected(challenge, n1, n.(client := c), target, Server);
    hide Leads, Step, NetEnabled, NetStep;
    var es := PostLeads(n, Client, Intruder(|sent|, target), n3);
  }

  /** A server that reads anything but the answer closes, without validating. */
  lemma ServerRejects(s: Conn, challenge: nat, word: seq<byte>) returns (s': Conn)
    requires challenge < TWO64 && Inv(s) && s.owner == Server && s.handshakeOut == challenge
    requires s.readOp.ReadingValidation? && |word| == HANDSHAKE_BYTES && s.receivedBytes <= word
    requires FromLE64(word) != EncryptWord(challenge)
    ensures var bytes := word[|s.receivedBytes|..];
            && Typed(s) && Enabled(s, Receive(bytes)) && s' == Step(s, Receive(bytes))
            && s.receivedBytes + bytes == word && s'.receivedBytes == word && s'.validated == 0 && !s'.open
  {
    ReadingWord(s);
    hide Inv, Step, Enabled, Typed, EncryptWord, FromLE64;
    var bytes := word[|s.receivedBytes|..];
    assert s.receivedBytes + bytes == word;
    AnswerEffect(s, bytes);
    s' := Step(s, Receive(bytes));
  }

  /** The server reads the eight bytes the client has sent. */
  lemma AnswerIsRejected(challenge: nat, n1: Net, n2: Net, word: seq<byte>, gatedAt: Owner) returns (n3: Net)
    requires challenge < TWO64 && Leads(n1, n2, gatedAt)
    requires Inv(n2.server) && n2.server.owner == Server && n2.server.handshakeOut == challenge
    requires n2.server.readOp.ReadingValidation? && n2.server.receivedBytes <= word == n2.client.sentBytes
    requires |word| == HANDSHAKE_BYTES && FromLE64(word) != EncryptWord(challenge)
    ensures Leads(n1, n3, gatedAt) && Rejected(n3)
  {
    var s' := ServerRejects(n2.server, challenge, word);
    hide Leads, Inv, Step, Enabled, Typed, FromLE64, EncryptWord;
    LeadsAt(n1, n2, Server, Receive(word[|n2.server.receivedBytes|..]), s', gatedAt);
    n3 := n2.(server := s');
  }

  lemma ReadingWord(c: Conn)
    requires Inv(c) && c.readOp.ReadingValidation?
    ensures c.readOp.got == c.receivedBytes && |c.receivedBytes| < HANDSHAKE_BYTES
    ensures c.owner == Server ==> c.validated == 0 && c.handshakeCheck == EncryptWord(c.handshakeOut)
  {
    hide Feed, FromLE64, EncryptWord, ReaderInv;
  }

  /** The client sends the answer to the challenge and nothing else for its word. */
  ghost predicate AnswerSafe(n: Net, challenge: nat)
    requires challenge < TWO64
  {
    && Inv(n.server) && Inv(n.client)
    && n.server.owner == Server && n.server.handshakeCheck == EncryptWord(challenge)
    && n.server.receivedBytes <= n.client.sentBytes
    && SafeWord(n.client, LE64(EncryptWord(challenge)))
  }

  lemma AnswerSafeStep(n: Net, ne: NetEvent, challenge: nat)
    requires challenge < TWO64 && AnswerSafe(n, challenge) && NetEnabled(n, ne)
    ensures AnswerSafe(NetStep(n, ne), challenge)
  {
    hide Inv, Step, Enabled, Typed, LE64, EncryptWord, SafeWord;
    InvStep(n.End(ne.owner), ne.e);
    StepHistory(n.End(ne.owner), ne.e);
    if ne.owner == Client {
      SafeWordStep(n.client, ne.e, LE64(EncryptWord(challenge)));
    }
  }

  lemma {:induction false} AnswerSafeRun(n: Net, es: seq<NetEvent>, challenge: nat)
    requires challenge < TWO64 && AnswerSafe(n, challenge) && CanRunNet(n, es)
    ensures AnswerSafe(RunNet(n, es), challenge)
    decreases |es|
  {
    if es != [] {
      AnswerSafeStep(n, es[0], challenge);
      hide NetStep, AnswerSafe, NetEnabled;
      AnswerSafeRun(NetStep(n, es[0]), es[1..], challenge);
    }
  }

  lemma AnswerSafeAccepted(n: Net, challenge: nat)
    requires challenge < TWO64 && AnswerSafe(n, challenge)
    ensures !Rejected(n)
  {
    if |n.server.receivedBytes| >= HANDSHAKE_BYTES {
      hide Inv, LE64, FromLE64, EncryptWord, CannotMix;
      FirstEight(n.server.receivedBytes, n.client.sentBytes, LE64(EncryptWord(challenge)));
      FromLE64OfLE64(EncryptWord(challenge));
      RightAnswer(n.server);
    }
  }

  /** What is read as the word is what was sent as the word. */
  lemma FirstEight(received: seq<byte>, sent: seq<byte>, word: seq<byte>)
    requires |word| == HANDSHAKE_BYTES <= |received| && received <= sent && WordPart(sent) <= word
    ensures received[..HANDSHAKE_BYTES] == word
  {
    assert received[..HANDSHAKE_BYTES] == WordPart(sent);
  }

  lemma ReadingServer(c: Conn)
    requires Inv(c)
    ensures c.owner == Server ==> c.handshakeCheck == EncryptWord(c.handshakeOut)
  {
    hide Feed, FromLE64, EncryptWord, ReaderInv;
  }

  /**
   * Once the last byte of the client's answer has left, nothing that happens at either end, premise
   * or not, makes the server reject the client.
   */
  lemma AnswerOutSafe(challenge: nat, n: Net, es: seq<NetEvent>)
    requires challenge < TWO64 && NetReaches(challenge, n, true)
    requires |n.client.sentBytes| >= HANDSHAKE_BYTES && CanRunNet(n, es)
    ensures !Rejected(RunNet(n, es))
  {
    ReachedInv(challenge, n);
    AnswerIsSafe(challenge, n, es);
  }

  /** The client's word is right so far, and what may come in between cannot change it. */
  lemma AnswerIsSafe(challenge: nat, n: Net, es: seq<NetEvent>)
    requires challenge < TWO64 && NetReaches(challenge, n, true) && CanRunNet(n, es)
    requires Typed(n.client)
    requires n.client.open && |n.client.sentBytes| < HANDSHAKE_BYTES ==> CannotMix(n.client)
    ensures !Rejected(RunNet(n, es))
  {
    ReachedInv(challenge, n);
    hide CanRunNet, RunNet, CannotMix;
    AnswerSafeNow(challenge, n);
    AnswerSafeRun(n, es, challenge);
    AnswerSafeAccepted(RunNet(n, es), challenge);
  }

  lemma AnswerSafeNow(challenge: nat, n: Net)
    requires challenge < TWO64 && NetInv(n, challenge)
    requires n.client.open && |n.client.sentBytes| < HANDSHAKE_BYTES ==> CannotMix(n.client)
    ensures AnswerSafe(n, challenge)
  {
    ClientWord(n, challenge);
    ReadingServer(n.server);
    WordBegun(n.client);
    hide Inv, SentInv, LE64, EncryptWord;
  }

  /**
   * The exact boundary at the client's end: in every state reached under the premise in which the
   * client has nothing queued and the open server waits for the answer, a post at the client can
   * make the server reject it if and only if the client is open and not all eight bytes of the
   * answer have left.
   */
  lemma ClientPostExact(challenge: nat, n: Net)
    requires challenge < TWO64 && NetReaches(challenge, n, true)
    requires n.client.queue == [] && n.server.open && n.server.readOp.ReadingValidation?
    ensures PostCanReject(n, Client) <==> n.client.open && |n.client.sentBytes| < HANDSHAKE_BYTES
  {
    ReachedInv(challenge, n);
    if n.client.open && |n.client.sentBytes| < HANDSHAKE_BYTES {
      ClientCanBreak(challenge, n);
    } else if PostCanReject(n, Client) {
      hide NetInv;
      var m, es, n' :| AfterPost(n, Client, m, es, n') && Rejected(n');
      hide CanRunNet, RunNet, Rejected;
      AnswerIsSafe(challenge, n, [At(Client, Post(m))] + es);
      assert false;
    }
  }

  // ---------------------------------------------------------------- the server's end

  /** A server's message can replace what is missing of its challenge. */
  lemma ServerCanMislead(challenge: nat, n: Net)
    requires challenge < TWO64 && NetInv(n, challenge)
    requires n.server.open && n.server.queue == [] && |n.server.sentBytes| < HANDSHAKE_BYTES
    requires n.client.readOp.ReadingValidation?
    ensures PostCanMislead(n, challenge)
  {
    hide LE64, FromLE64, EncryptWord, WrongWord, SentInv, Inv, Intruder;
    var sent := n.server.sentBytes;
    var target := WrongWord(sent, LE64(challenge));
    WrongWordIsWrong(sent, challenge);
    var s, c := ServerIntrudes(challenge, n, target);
    hide Leads, Step, NetEnabled, NetStep;
    var es := PostLeads(n, Server, Intruder(|sent|, target), Net(s, c));
  }

  /** The client takes `target` for the challenge. */
  lemma ServerIntrudes(challenge: nat, n: Net, target: seq<byte>) returns (s: Conn, c: Conn)
    requires challenge < TWO64 && NetInv(n, challenge)
    requires n.server.open && n.server.queue == [] && n.client.readOp.ReadingValidation?
    requires |n.server.sentBytes| < HANDSHAKE_BYTES == |target| && n.server.sentBytes <= target
    ensures var post := At(Server, Post(Intruder(|n.server.sentBytes|, target)));
            NetEnabled(n, post) && Leads(NetStep(n, post), Net(s, c), Client)
    ensures Inv(s) && s.owner == Server && s.handshakeOut == challenge
    ensures s.readOp == n.server.readOp && s.receivedBytes == n.server.receivedBytes
    ensures Inv(c) && c.open == n.client.open && c.receivedBytes == target
    ensures c.validationWrite == Some(0) && c.sentBytes == []
    ensures c.handshakeIn == FromLE64(target) && c.handshakeOut == EncryptWord(FromLE64(target))
  {
    hide LE64, FromLE64, EncryptWord, Intruder;
    s := IntrudeLeads(n, Server, target);
    c := ClientMisreads(n.client, target);
    var n1 := NetStep(n, At(Server, Post(Intruder(|n.server.sentBytes|, target))));
    hide Leads, Inv, SentInv, Step, Enabled, Typed, NetEnabled, NetStep;
    LeadsAt(n1, n.(server := s), Client, Receive(target[|n.client.receivedBytes|..]), c, Client);
  }

  lemma ClientMisreads(c: Conn, word: seq<byte>) returns (c': Conn)
    requires Inv(c) && SentInv(c) && c.owner == Client
    requires c.readOp.ReadingValidation? && |word| == HANDSHAKE_BYTES && c.receivedBytes <= word
    ensures var bytes := word[|c.receivedBytes|..];
            && Typed(c) && Enabled(c, Receive(bytes)) && c' == Step(c, Receive(bytes)) && c.receivedBytes + bytes == word
    ensures Inv(c') && c'.open == c.open && c'.queue == c.queue && c'.receivedBytes == word
    ensures c'.validationWrite == Some(0) && c'.sentBytes == []
    ensures c'.handshakeIn == FromLE64(word) && c'.handshakeOut == EncryptWord(FromLE64(word))
  {
    ReadingWord(c);
    NothingSentYet(c);
    hide Inv, SentInv, Step, Enabled, Typed, EncryptWord, FromLE64;
    var bytes := word[|c.receivedBytes|..];
    assert c.receivedBytes + bytes == word;
    RequestEffect(c, bytes);
    c' := Step(c, Receive(bytes));
  }

  lemma FlippedBegins(challenge: nat, sent: seq<byte>)
    requires challenge < TWO64 && |sent| < 7 && sent <= LE64(challenge)
    ensures sent <= LE64(Flipped(challenge))
  {
    FlippedBytes(challenge);
    hide LE64, Flipped;
    assert LE64(challenge)[..6][..|sent|] == LE64(challenge)[..|sent|];
    assert LE64(Flipped(challenge))[..6][..|sent|] == LE64(Flipped(challenge))[..|sent|];
  }

  lemma ServerHasSent(n: Net, challenge: nat)
    requires challenge < TWO64 && NetInv(n, challenge) && |n.server.sentBytes| < HANDSHAKE_BYTES
    ensures n.server.sentBytes <= LE64(challenge)
  {
    WordBegun(n.server);
    hide Inv, SentInv, LE64;
  }

  /** If the byte that matters has not left, the client's honest answer to the wrong word is rejected. */
  lemma ServerCanBreak(challenge: nat, n: Net)
    requires challenge < TWO64 && NetInv(n, challenge) && n.server.open && n.client.open && n.server.queue == []
    requires n.server.readOp.ReadingValidation? && n.client.readOp.ReadingValidation? && |n.server.sentBytes| < 7
    ensures PostCanReject(n, Server)
  {
    var sent := n.server.sentBytes;
    var target := LE64(Flipped(challenge));
    FlippedAnswer(challenge);
    FromLE64OfLE64(Flipped(challenge));
    ServerHasSent(n, challenge);
    FlippedBegins(challenge, sent);
    NothingReceivedYet(n, challenge);
    hide LE64, FromLE64, EncryptWord, Flipped, Intruder, SentInv;
    var s, c := ServerIntrudes(challenge, n, target);
    var n1 := NetStep(n, At(Server, Post(Intruder(|sent|, target))));
    var n5 := HonestAnswer(challenge, n1, s, c);
    hide Leads, Step, NetEnabled, NetStep, NetInv;
    var es := PostLeads(n, Server, Intruder(|sent|, target), n5);
  }

  lemma NothingReceivedYet(n: Net, challenge: nat)
    requires challenge < TWO64 && NetInv(n, challenge) && n.client.readOp.ReadingValidation?
    ensures n.server.receivedBytes == []
  {
    ReadingWord(n.client);
    NothingSentYet(n.client);
  }

  /** The client sends its answer, and the server reads it. */
  lemma HonestAnswer(challenge: nat, n1: Net, s: Conn, c: Conn) returns (n5: Net)
    requires challenge < TWO64 && Leads(n1, Net(s, c), Client)
    requires Inv(s) && s.owner == Server && s.handshakeOut == challenge
    requires s.readOp.ReadingValidation? && s.receivedBytes == []
    requires Inv(c) && c.open && c.validationWrite == Some(0) && c.sentBytes == []
    requires c.handshakeOut < TWO64 && c.handshakeOut != EncryptWord(challenge)
    ensures Leads(n1, n5, Client) && Rejected(n5)
  {
    FromLE64OfLE64(c.handshakeOut);
    hide Leads, LE64, FromLE64, EncryptWord, Inv, Rejected;
    var c4 := AnswerSent(n1, s, c);
    n5 := AnswerIsRejected(challenge, n1, Net(s, c4), LE64(c.handshakeOut), Client);
  }

  lemma AnswerSent(n1: Net, s: Conn, c: Conn) returns (c': Conn)
    requires Leads(n1, Net(s, c), Client)
    requires Inv(c) && c.open && c.validationWrite == Some(0) && c.sentBytes == [] && c.handshakeOut < TWO64
    ensures Leads(n1, Net(s, c'), Client) && c'.sentBytes == LE64(c.handshakeOut)
  {
    c' := AnswerLeaves(c);
    hide Leads, LE64, Step, Enabled, Typed, Inv;
    LeadsAt(n1, Net(s, c), Client, SendValidation(HANDSHAKE_BYTES), c', Client);
  }

  lemma AnswerLeaves(c: Conn) returns (c': Conn)
    requires Inv(c) && c.open && c.validationWrite == Some(0) && c.sentBytes == [] && c.handshakeOut < TWO64
    ensures Typed(c) && Enabled(c, SendValidation(HANDSHAKE_BYTES)) && c' == Step(c, SendValidation(HANDSHAKE_BYTES))
    ensures c'.sentBytes == LE64(c.handshakeOut)
  {
    hide LE64, ReaderInv, HandshakeInv, ChainInv;
    SentWhole(LE64(c.handshakeOut));
    c' := Step(c, SendValidation(HANDSHAKE_BYTES));
  }

  /** The server sends the challenge and nothing else for its word. */
  ghost predicate ChallengeSafe(n: Net, challenge: nat)
    requires challenge < TWO64
  {
    && Inv(n.server) && Inv(n.client) && n.client.owner == Client
    && n.client.receivedBytes <= n.server.sentBytes
    && SafeWord(n.server, LE64(challenge))
  }

  lemma ChallengeSafeStep(n: Net, ne: NetEvent, challenge: nat)
    requires challenge < TWO64 && ChallengeSafe(n, challenge) && NetEnabled(n, ne)
    ensures ChallengeSafe(NetStep(n, ne), challenge)
  {
    hide Inv, Step, Enabled, Typed, LE64, SafeWord;
    InvStep(n.End(ne.owner), ne.e);
    StepHistory(n.End(ne.owner), ne.e);
    if ne.owner == Server {
      SafeWordStep(n.server, ne.e, LE64(challenge));
    }
  }

  lemma {:induction false} ChallengeSafeRun(n: Net, es: seq<NetEvent>, challenge: nat)
    requires challenge < TWO64 && ChallengeSafe(n, challenge) && CanRunNet(n, es)
    ensures ChallengeSafe(RunNet(n, es), challenge)
    decreases |es|
  {
    if es != [] {
      ChallengeSafeStep(n, es[0], challenge);
      hide NetStep, ChallengeSafe, NetEnabled;
      ChallengeSafeRun(NetStep(n, es[0]), es[1..], challenge);
    }
  }

  lemma ChallengeSafeTaken(n: Net, challenge: nat)
    requires challenge < TWO64 && ChallengeSafe(n, challenge)
    ensures !Misled(n, challenge)
  {
    if |n.client.receivedBytes| >= HANDSHAKE_BYTES {
      hide Inv, LE64, FromLE64;
      FirstEight(n.client.receivedBytes, n.server.sentBytes, LE64(challenge));
      FromLE64OfLE64(challenge);
      WordTaken(n.client);
    }
  }

  lemma WordTaken(c: Conn)
    requires Inv(c) && c.owner == Client && |c.receivedBytes| >= HANDSHAKE_BYTES
    ensures c.handshakeIn == FromLE64(c.receivedBytes[..HANDSHAKE_BYTES])
  {
    hide Feed, LE64, FromLE64, EncryptWord, ReaderInv, ChainInv;
  }

  lemma ChallengeSafeNow(challenge: nat, n: Net)
    requires challenge < TWO64 && NetInv(n, challenge)
    requires n.server.open && |n.server.sentBytes| < HANDSHAKE_BYTES ==> CannotMix(n.server)
    ensures ChallengeSafe(n, challenge)
  {
    WordBegun(n.server);
    hide Inv, SentInv, LE64, WordPart;
  }

  /** The server's word is right so far, and what may come in between cannot change it. */
  lemma ChallengeIsSafe(challenge: nat, n: Net, es: seq<NetEvent>)
    requires challenge < TWO64 && NetReaches(challenge, n, true) && CanRunNet(n, es)
    requires Typed(n.server)
    requires n.server.open && |n.server.sentBytes| < HANDSHAKE_BYTES ==> CannotMix(n.server)
    ensures !Misled(RunNet(n, es), challenge)
  {
    ReachedInv(challenge, n);
    hide CanRunNet, RunNet, CannotMix;
    ChallengeSafeNow(challenge, n);
    ChallengeSafeRun(n, es, challenge);
    ChallengeSafeTaken(RunNet(n, es), challenge);
  }

  /** Once the last byte of the challenge has left, nothing at either end misleads the client. */
  lemma ChallengeOutSafe(challenge: nat, n: Net, es: seq<NetEvent>)
    requires challenge < TWO64 && NetReaches(challenge, n, true)
    requires |n.server.sentBytes| >= HANDSHAKE_BYTES && CanRunNet(n, es)
    ensures !Misled(RunNet(n, es), challenge)
  {
    ReachedInv(challenge, n);
    ChallengeIsSafe(challenge, n, es);
  }

  /**
   * The exact boundary at the server's end: in every state reached under the premise in which the
   * server has nothing queued and the open client waits for the challenge, a post at the server can
   * make the client take a wrong challenge if and only if the server is open and not all eight
   * bytes of the challenge have left.
   */
  lemma ServerPostExact(challenge: nat, n: Net)
    requires challenge < TWO64 && NetReaches(challenge, n, true)
    requires n.server.queue == [] && n.client.open && n.client.readOp.ReadingValidation?
    ensures PostCanMislead(n, challenge) <==> n.server.open && |n.server.sentBytes| < HANDSHAKE_BYTES
  {
    ReachedInv(challenge, n);
    if n.server.open && |n.server.sentBytes| < HANDSHAKE_BYTES {
      ServerCanMislead(challenge, n);
    } else if PostCanMislead(n, challenge) {
      var m, es, n' :| AfterPost(n, Server, m, es, n') && Misled(n', challenge);
      hide CanRunNet, RunNet, Misled;
      ChallengeIsSafe(challenge, n, [At(Server, Post(m))] + es);
      assert false;
    }
  }

  /**
   * Seven bytes of the challenge have left, or the server was closed before all eight had; and the
   * client keeps the premise.
   */
  ghost predicate SevenOut(n: Net, challenge: nat)
    requires challenge < TWO64
  {
    && Inv(n.server) && Inv(n.client) && n.server.owner == Server && n.client.owner == Client
    && n.server.handshakeCheck == EncryptWord(challenge)
    && SentInv(n.client)
    && n.client.receivedBytes <= n.server.sentBytes && n.server.receivedBytes <= n.client.sentBytes
    && (LE64(challenge)[..7] <= n.server.sentBytes || (!n.server.open && |n.server.sentBytes| < HANDSHAKE_BYTES))
  }

  lemma SevenOutStep(n: Net, ne: NetEvent, challenge: nat)
    requires challenge < TWO64 && SevenOut(n, challenge) && NetEnabled(n, ne)
    requires ne.owner == Client ==> Gated(n, ne)
    ensures SevenOut(NetStep(n, ne), challenge)
  {
    hide Inv, Step, Enabled, Typed, LE64, EncryptWord, SentInv, GatedEnd;
    InvStep(n.End(ne.owner), ne.e);
    StepHistory(n.End(ne.owner), ne.e);
    if ne.owner == Client {
      SentStep(n.client, ne.e);
    } else if !n.server.open {
      ClosedIsSilent(n.server, ne.e);
    }
  }

  lemma {:induction false} SevenOutRun(n: Net, es: seq<NetEvent>, challenge: nat)
    requires challenge < TWO64 && SevenOut(n, challenge) && CanRunNet(n, es) && GatedAt(n, es, Client)
    ensures SevenOut(RunNet(n, es), challenge)
    decreases |es|
  {
    if es != [] {
      SevenOutStep(n, es[0], challenge);
      hide NetStep, SevenOut, NetEnabled, Gated;
      SevenOutRun(NetStep(n, es[0]), es[1..], challenge);
    }
  }

  /** Whatever the client then takes for the challenge, its answer is the right one. */
  lemma SevenOutAnswer(n: Net, challenge: nat)
    requires challenge < TWO64 && SevenOut(n, challenge) && n.client.sentBytes != []
    ensures n.client.handshakeOut == EncryptWord(challenge)
  {
    hide LE64, FromLE64, EncryptWord, Inv, SentInv;
    ClientHasReceived(n.client);
    var word := n.client.receivedBytes[..HANDSHAKE_BYTES];
    assert word[..7] == LE64(challenge)[..7];
    SevenBytesDecide(word, LE64(challenge));
    FromLE64OfLE64(challenge);
  }

  lemma SevenOutAccepted(n: Net, challenge: nat)
    requires challenge < TWO64 && SevenOut(n, challenge)
    ensures !Rejected(n)
  {
    if |n.server.receivedBytes| >= HANDSHAKE_BYTES {
      hide LE64, FromLE64, EncryptWord, Inv, SentInv;
      SevenOutAnswer(n, challenge);
      WordArrives(n.client, n.server);
      RightAnswer(n.server);
    }
  }

  lemma RightAnswer(c: Conn)
    requires Inv(c) && c.owner == Server && |c.receivedBytes| >= HANDSHAKE_BYTES
    requires FromLE64(c.receivedBytes[..HANDSHAKE_BYTES]) == c.handshakeCheck
    ensures c.validated == 1
  {
    hide Feed, FromLE64, EncryptWord, ReaderInv;
  }

  lemma SevenBytesOut(n: Net, challenge: nat)
    requires challenge < TWO64 && NetInv(n, challenge) && (|n.server.sentBytes| >= 7 || !n.server.open)
    ensures SevenOut(n, challenge)
  {
    ReadingServer(n.server);
    WordBegun(n.server);
    hide Inv, SentInv, LE64, EncryptWord, WordPart;
    if |n.server.sentBytes| >= 7 {
      SentOfWord(n.server.sentBytes, LE64(challenge), 7);
    }
  }

  /** As much of the word has left as was sent. */
  lemma SentOfWord(sent: seq<byte>, word: seq<byte>, k: nat)
    requires |word| == HANDSHAKE_BYTES && WordPart(sent) <= word && k <= HANDSHAKE_BYTES && k <= |sent|
    ensures word[..k] <= sent
  {
    assert word[..k] == WordPart(sent)[..k];
  }

  lemma WordBegun(c: Conn)
    requires Inv(c) && SentInv(c)
    ensures c.handshakeOut < TWO64 && WordPart(c.sentBytes) <= LE64(c.handshakeOut)
  {
  }

  lemma SevenOutSafe(challenge: nat, n: Net, es: seq<NetEvent>)
    requires challenge < TWO64 && NetReaches(challenge, n, true)
    requires |n.server.sentBytes| >= 7 || !n.server.open
    requires CanRunNet(n, es) && GatedAt(n, es, Client)
    ensures !Rejected(RunNet(n, es))
  {
    ReachedInv(challenge, n);
    SevenBytesOut(n, challenge);
    hide NetInv, SevenOut;
    SevenOutRun(n, es, challenge);
    SevenOutAccepted(RunNet(n, es), challenge);
  }

  /**
   * And when the server then rejects its client: exactly if both ends are open and fewer than seven
   * bytes of the challenge have left. The puzzle leaves out the top byte, so that a message whose
   * first byte takes the place of the eighth misleads the client without changing its answer.
   */
  lemma ServerPostRejectsExact(challenge: nat, n: Net)
    requires challenge < TWO64 && NetReaches(challenge, n, true) && n.server.queue == []
    requires n.server.readOp.ReadingValidation? && n.client.readOp.ReadingValidation?
    ensures PostCanReject(n, Server) <==> n.server.open && n.client.open && |n.server.sentBytes| < 7
  {
    ReachedInv(challenge, n);
    if n.server.open && n.client.open && |n.server.sentBytes| < 7 {
      ServerCanBreak(challenge, n);
    } else if PostCanReject(n, Server) {
      var m, es, n' :| AfterPost(n, Server, m, es, n') && Rejected(n');
      hide CanRunNet, RunNet, Rejected, GatedAt;
      if !n.client.open {
        AnswerIsSafe(challenge, n, [At(Server, Post(m))] + es);
      } else {
        SevenOutSafe(challenge, n, [At(Server, Post(m))] + es);
      }
      assert false;
    }
  }

  // ---------------------------------------------------------------- such states are reached

  /** The server has sent any number of bytes of its challenge, nothing is queued, and both ends read. */
  lemma ReachMidWord(challenge: nat, k: nat) returns (n: Net)
    requires challenge < TWO64 && k <= HANDSHAKE_BYTES
    ensures NetReaches(challenge, n, true) && n.server.open && n.client.open
    ensures n.server.queue == [] && n.client.queue == [] && |n.server.sentBytes| == k && n.client.sentBytes == []
    ensures n.server.readOp.ReadingValidation? && n.client.readOp.ReadingValidation?
  {
    var n0 := Initial(challenge);
    ReachesInitial(challenge);
    var s1, s2 := ServerSends(challenge, k);
    var c1 := ClientStarts(challenge);
    hide EncryptWord, NetReaches, FromLE64, LE64, Fresh, Step, Typed, Enabled;
    NetReachesStep(challenge, n0, At(Server, Start), true);
    NetReachesStep(challenge, Net(s1, n0.client), At(Server, SendValidation(k)), true);
    NetReachesStep(challenge, Net(s2, n0.client), At(Client, Start), true);
    n := Net(s2, c1);
  }

  lemma ServerSends(challenge: nat, k: nat) returns (s1: Conn, s2: Conn)
    requires challenge < TWO64 && k <= HANDSHAKE_BYTES
    ensures var s0 := Fresh(Server, challenge);
            && Typed(s0) && Enabled(s0, Start) && s1 == Step(s0, Start)
            && Typed(s1) && Enabled(s1, SendValidation(k)) && s2 == Step(s1, SendValidation(k))
            && s2.open && s2.queue == [] && |s2.sentBytes| == k && s2.readOp.ReadingValidation?
  {
    var s0 := Fresh(Server, challenge);
    hide EncryptWord, FromLE64, LE64, Feed;
    FreshInv(Server, challenge);
    s1 := Step(s0, Start);
    StartKeeps(s0);
    s2 := Step(s1, SendValidation(k));
  }

  lemma ClientStarts(challenge: nat) returns (c1: Conn)
    requires challenge < TWO64
    ensures var c0 := Fresh(Client, challenge);
            && Typed(c0) && Enabled(c0, Start) && c1 == Step(c0, Start)
            && c1.open && c1.queue == [] && c1.sentBytes == [] && c1.readOp.ReadingValidation?
  {
    hide EncryptWord, FromLE64, LE64, Feed;
    FreshInv(Client, challenge);
    c1 := Step(Fresh(Client, challenge), Start);
  }

  lemma {:induction false} RunNetAppend(n: Net, es: seq<NetEvent>, fs: seq<NetEvent>)
    requires CanRunNet(n, es) && CanRunNet(RunNet(n, es), fs)
    ensures CanRunNet(n, es + fs) && RunNet(n, es + fs) == RunNet(RunNet(n, es), fs)
    decreases |es|
  {
    hide NetStep, NetEnabled;
    if es == [] {
      assert es + fs == fs;
    } else {
      RunNetUnfold(n, es);
      hide CanRunNet, RunNet;
      RunNetAppend(NetStep(n, es[0]), es[1..], fs);
      RunNetFirst(n, es[0], es[1..] + fs);
      assert es + fs == [es[0]] + (es[1..] + fs);
    }
  }

  /**
   * The premise is needed, for `SendData` does not wait for the handshake: for every challenge
   * some run in which a client's message leaves too early ends with the server having closed on it.
   */
  lemma UngatedPostBreaksHandshake(challenge: nat)
    requires challenge < TWO64
    ensures exists n :: NetReaches(challenge, n, false) && |n.server.receivedBytes| >= HANDSHAKE_BYTES
                        && n.server.validated == 0 && !n.server.open
  {
    var n := ReachMidWord(challenge, HANDSHAKE_BYTES);
    ClientPostExact(challenge, n);
    var m, es, n' :| AfterPost(n, Client, m, es, n') && Rejected(n');
    ReachesAfter(challenge, n, [At(Client, Post(m))] + es);
  }

  lemma ReachesAfter(challenge: nat, n: Net, es: seq<NetEvent>)
    requires challenge < TWO64 && NetReaches(challenge, n, true) && CanRunNet(n, es)
    ensures NetReaches(challenge, RunNet(n, es), false)
  {
    hide CanRunNet, RunNet, GatedRun;
    var before :| CanRunNet(Initial(challenge), before) && RunNet(Initial(challenge), before) == n;
    RunNetAppend(Initial(challenge), before, es);
    assert CanRunNet(Initial(challenge), before + es) && RunNet(Initial(challenge), before + es) == RunNet(n, es);
  }
}

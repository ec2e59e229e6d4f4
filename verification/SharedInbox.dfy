/**
 * A server and all its clients: every connection of a server pushes what it has received into one
 * shared queue of owned messages, from which `update` takes them for `onMessage`.
 */
module SharedInbox {
  import opened Arith
  import opened Messages
  import opened Framing
  import opened Connections
  import opened EndToEnd
  import opened Wrappers

  /** A received message and the connection it came from. */
  datatype Owned = Owned(remote: nat, msg: Message)

  /** The connections made so far with their clients, the shared queue, and what `onMessage` was called with. */
  datatype Hub = Hub(links: seq<Net>, inbox: seq<Owned>, handled: seq<Owned>)

  const EMPTY_HUB: Hub := Hub([], [], [])

  datatype HubEvent =
    | Connect(challenge: nat)        // a client connects
    | OnLink(i: nat, ne: NetEvent)   // something happens on connection `i`
    | Handle                         // `update` pops a message and calls `onMessage`

  predicate HubEnabled(h: Hub, e: HubEvent) {
    match e
    case Connect(challenge) => challenge < TWO64
    case OnLink(i, ne) => i < |h.links| && NetEnabled(h.links[i], ne)
    case Handle => h.inbox != []
  }

  /** The premise, for connection `g` only: what the other clients do is up to them. */
  predicate HubGated(h: Hub, e: HubEvent, g: nat)
    requires HubEnabled(h, e)
  {
    e.OnLink? && e.i == g ==> Gated(h.links[g], e.ne)
  }

  function Tag(remote: nat, ms: seq<Message>): seq<Owned> {
    if ms == [] then [] else Tag(remote, ms[..|ms| - 1]) + [Owned(remote, ms[|ms| - 1])]
  }

  /** What a step has added to the messages a connection has received. */
  function Arrived(before: seq<Message>, now: seq<Message>): seq<Message> {
    if |before| <= |now| then now[|before|..] else []
  }

  function HubStep(h: Hub, e: HubEvent): Hub
    requires HubEnabled(h, e)
  {
    match e
    case Connect(challenge) => h.(links := h.links + [Initial(challenge)])
    case OnLink(i, ne) =>
      var n := NetStep(h.links[i], ne);
      h.(links := h.links[i := n],
         inbox := h.inbox + Tag(i, Arrived(h.links[i].server.reader.out, n.server.reader.out)))
    case Handle => h.(inbox := h.inbox[1..], handled := h.handled + [h.inbox[0]])
  }

  predicate CanRunHub(h: Hub, es: seq<HubEvent>, g: nat)
    decreases |es|
  {
    es != [] ==> HubEnabled(h, es[0]) && HubGated(h, es[0], g) && CanRunHub(HubStep(h, es[0]), es[1..], g)
  }

  function RunHub(h: Hub, es: seq<HubEvent>, g: nat): Hub
    requires CanRunHub(h, es, g)
    decreases |es|
  {
    if es == [] then h else RunHub(HubStep(h, es[0]), es[1..], g)
  }

  // ---------------------------------------------------------------- one client's messages

  /** The messages of one client among others, in order. */
  function From(os: seq<Owned>, remote: nat): seq<Message> {
    if os == [] then []
    else
      var last := |os| - 1;
      From(os[..last], remote) + if os[last].remote == remote then [os[last].msg] else []
  }

  lemma {:induction false} FromAppend(a: seq<Owned>, b: seq<Owned>, remote: nat)
    ensures From(a + b, remote) == From(a, remote) + From(b, remote)
  {
    if b == [] {
      assert a + b == a;
    } else {
      var last := |b| - 1;
      FromAppend(a, b[..last], remote);
      assert (a + b)[..|a + b| - 1] == a + b[..last];
    }
  }

  lemma {:induction false} FromTag(i: nat, ms: seq<Message>, remote: nat)
    ensures From(Tag(i, ms), remote) == if i == remote then ms else []
  {
    if ms != [] {
      var last := |ms| - 1;
      FromTag(i, ms[..last], remote);
      var tagged := Tag(i, ms);
      assert tagged[..|tagged| - 1] == Tag(i, ms[..last]);
      assert ms == ms[..last] + [ms[last]];
    }
  }

  lemma {:induction false} TagRemotes(i: nat, ms: seq<Message>)
    ensures |Tag(i, ms)| == |ms| && forall k :: 0 <= k < |ms| ==> Tag(i, ms)[k].remote == i
  {
    if ms != [] {
      TagRemotes(i, ms[..|ms| - 1]);
    }
  }

  // ---------------------------------------------------------------- the invariant

  /** Both ends are in order; and together, if they keep the premise. */
  ghost predicate LinkInv(n: Net, gated: bool) {
    && Inv(n.server) && Inv(n.client) && n.server.owner == Server
    && n.server.handshakeOut < TWO64
    && (gated ==> NetInv(n, n.server.handshakeOut))
  }

  ghost predicate LinksOk(links: seq<Net>, g: nat) {
    forall i :: 0 <= i < |links| ==> LinkInv(links[i], i == g)
  }

  /** The messages of each client among `os` are what its connection has received. */
  ghost predicate PerClient(os: seq<Owned>, links: seq<Net>) {
    forall i :: 0 <= i < |links| ==> From(os, i) == links[i].server.reader.out
  }

  ghost predicate Remotes(os: seq<Owned>, count: nat) {
    forall k :: 0 <= k < |os| ==> os[k].remote < count
  }

  ghost predicate HubInv(h: Hub, g: nat) {
    LinksOk(h.links, g) && PerClient(h.handled + h.inbox, h.links) && Remotes(h.handled + h.inbox, |h.links|)
  }

  lemma {:induction false} FromNobody(os: seq<Owned>, remote: nat)
    requires forall k :: 0 <= k < |os| ==> os[k].remote != remote
    ensures From(os, remote) == []
  {
    if os != [] {
      FromNobody(os[..|os| - 1], remote);
    }
  }

  lemma InitialLink(challenge: nat)
    requires challenge < TWO64
    ensures forall gated :: LinkInv(Initial(challenge), gated)
    ensures Initial(challenge).server.reader.out == []
  {
    InitialInv(challenge);
    hide Inv, SentInv;
  }

  /** A new connection, from which nothing has come. */
  lemma NewLink(os: seq<Owned>, links: seq<Net>, n: Net)
    requires PerClient(os, links) && Remotes(os, |links|) && n.server.reader.out == []
    ensures PerClient(os, links + [n]) && Remotes(os, |links| + 1)
  {
    FromNobody(os, |links|);
    hide From;
    forall i | 0 <= i < |links + [n]|
      ensures From(os, i) == (links + [n])[i].server.reader.out
    {
      assert i < |links| ==> (links + [n])[i] == links[i];
    }
  }

  lemma NewLinkOk(links: seq<Net>, n: Net, g: nat)
    requires LinksOk(links, g) && LinkInv(n, |links| == g)
    ensures LinksOk(links + [n], g)
  {
    hide LinkInv;
  }

  lemma ConnectKeeps(h: Hub, challenge: nat, g: nat)
    requires HubInv(h, g) && challenge < TWO64
    ensures HubInv(HubStep(h, Connect(challenge)), g)
  {
    hide LinksOk, PerClient, Remotes, LinkInv, Initial, NetStep, NetEnabled, Tag, Arrived;
    InitialLink(challenge);
    NewLinkOk(h.links, Initial(challenge), g);
    NewLink(h.handled + h.inbox, h.links, Initial(challenge));
  }

  lemma LinkChanges(links: seq<Net>, i: nat, n: Net, g: nat)
    requires LinksOk(links, g) && i < |links| && LinkInv(n, i == g)
    ensures LinksOk(links[i := n], g)
  {
    hide LinkInv;
  }

  lemma LinkStep(n: Net, ne: NetEvent, gated: bool)
    requires LinkInv(n, gated) && NetEnabled(n, ne) && (gated ==> Gated(n, ne))
    ensures LinkInv(NetStep(n, ne), gated)
    ensures n.server.reader.out <= NetStep(n, ne).server.reader.out
  {
    if gated {
      NetInvStep(n, ne, n.server.handshakeOut);
    }
    hide Step, Enabled, Inv, Typed, NetInv, Gated;
    InvStep(n.End(ne.owner), ne.e);
    StepHistory(n.End(ne.owner), ne.e);
    if ne.owner == Server && ne.e.Receive? {
      hide Feed;
      ReaderValid(n.server);
      FeedExtends(n.server.reader, ne.e.bytes);
    }
  }

  lemma ReaderValid(c: Conn)
    requires Inv(c)
    ensures c.reader.Valid()
  {
  }

  /** New messages of connection `i` join the others. */
  lemma MoreFrom(os: seq<Owned>, links: seq<Net>, i: nat, n: Net)
    requires PerClient(os, links) && Remotes(os, |links|) && i < |links|
    requires links[i].server.reader.out <= n.server.reader.out
    ensures var more := Tag(i, Arrived(links[i].server.reader.out, n.server.reader.out));
            PerClient(os + more, links[i := n]) && Remotes(os + more, |links|)
  {
    var before, now := links[i].server.reader.out, n.server.reader.out;
    var ms := Arrived(before, now);
    assert before + ms == now;
    TagRemotes(i, ms);
    hide From, Tag, Arrived;
    forall j | 0 <= j < |links|
      ensures From(os + Tag(i, ms), j) == links[i := n][j].server.reader.out
    {
      FromAppend(os, Tag(i, ms), j);
      FromTag(i, ms, j);
    }
  }

  lemma OnLinkKeeps(h: Hub, i: nat, ne: NetEvent, g: nat)
    requires HubInv(h, g) && HubEnabled(h, OnLink(i, ne)) && HubGated(h, OnLink(i, ne), g)
    ensures HubInv(HubStep(h, OnLink(i, ne)), g)
  {
    hide LinkInv, NetStep, NetEnabled, Gated, Tag, Arrived, PerClient, Remotes, Initial;
    assert LinkInv(h.links[i], i == g);
    LinkStep(h.links[i], ne, i == g);
    var n := NetStep(h.links[i], ne);
    hide LinksOk;
    LinkChanges(h.links, i, n, g);
    MoreFrom(h.handled + h.inbox, h.links, i, n);
    var more := Tag(i, Arrived(h.links[i].server.reader.out, n.server.reader.out));
    assert h.handled + (h.inbox + more) == (h.handled + h.inbox) + more;
  }

  lemma HandleKeeps(h: Hub, g: nat)
    requires HubInv(h, g) && h.inbox != []
    ensures HubInv(HubStep(h, Handle), g)
  {
    hide LinksOk, PerClient, Remotes;
    assert h.handled + [h.inbox[0]] + h.inbox[1..] == h.handled + h.inbox;
  }

  lemma {:induction false} HubRun(h: Hub, es: seq<HubEvent>, g: nat)
    requires HubInv(h, g) && CanRunHub(h, es, g)
    ensures HubInv(RunHub(h, es, g), g)
    decreases |es|
  {
    if es != [] {
      match es[0] {
        case Connect(challenge) => ConnectKeeps(h, challenge, g);
        case OnLink(i, ne) => OnLinkKeeps(h, i, ne, g);
        case Handle => HandleKeeps(h, g);
      }
      hide HubInv, HubStep, HubEnabled, HubGated;
      HubRun(HubStep(h, es[0]), es[1..], g);
    }
  }

  /**
   * Order per client, over every run of a server with any number of clients, any interleaving of
   * their connections and of `update`: the messages `onMessage` was called with for client `i` are,
   * in order, a prefix of those this client posted, whatever the other clients send and whether
   * they keep the premise or not; nothing is handled for a client that does not exist; and a
   * client's messages are all handled once its queue, its pipe and the shared queue are empty.
   */
  lemma OnMessageInOrder(es: seq<HubEvent>, i: nat)
    requires CanRunHub(EMPTY_HUB, es, i) && i < |RunHub(EMPTY_HUB, es, i).links|
    ensures var h := RunHub(EMPTY_HUB, es, i);
            var n := h.links[i];
            && Views(From(h.handled, i)) <= Views(n.client.posted)
            && (forall k :: 0 <= k < |h.handled| ==> h.handled[k].remote < |h.links|)
            && From(h.handled + h.inbox, i) == n.server.reader.out
            && (h.inbox == [] && n.client.queue == [] && n.server.receivedBytes == n.client.sentBytes ==>
                  Views(From(h.handled, i)) == Views(n.client.posted))
  {
    EmptyHub(i);
    HubRun(EMPTY_HUB, es, i);
    hide RunHub, CanRunHub, HubInv;
    InOrderNow(RunHub(EMPTY_HUB, es, i), i);
  }

  lemma InOrderNow(h: Hub, i: nat)
    requires HubInv(h, i) && i < |h.links|
    ensures var n := h.links[i];
            && Views(From(h.handled, i)) <= Views(n.client.posted)
            && (forall k :: 0 <= k < |h.handled| ==> h.handled[k].remote < |h.links|)
            && From(h.handled + h.inbox, i) == n.server.reader.out
            && (h.inbox == [] && n.client.queue == [] && n.server.receivedBytes == n.client.sentBytes ==>
                  Views(From(h.handled, i)) == Views(n.client.posted))
  {
    hide LinkInv, From;
    LinkDelivers(h.links[i]);
    HandledFirst(h.handled, h.inbox, i);
    assert forall k :: 0 <= k < |h.handled| ==> (h.handled + h.inbox)[k] == h.handled[k];
    PrefixViews(From(h.handled, i), h.links[i].server.reader.out);
    hide Views;
  }

  lemma EmptyHub(g: nat)
    ensures HubInv(EMPTY_HUB, g)
  {
  }

  lemma HandledFirst(handled: seq<Owned>, inbox: seq<Owned>, i: nat)
    ensures From(handled, i) <= From(handled + inbox, i) && handled <= handled + inbox
    ensures inbox == [] ==> handled + inbox == handled
  {
    FromAppend(handled, inbox, i);
    hide From;
  }

  lemma LinkDelivers(n: Net)
    requires LinkInv(n, true)
    ensures Views(n.server.reader.out) <= Views(n.client.posted)
    ensures n.client.queue == [] && n.server.receivedBytes == n.client.sentBytes ==>
              Views(n.server.reader.out) == Views(n.client.posted)
  {
    hide Inv, SentInv;
    Delivered(n.client, n.server);
  }

  lemma PrefixViews(a: seq<Message>, b: seq<Message>)
    requires a <= b
    ensures Views(a) <= Views(b)
  {
  }

  // ---------------------------------------------------------------- the server, from the events alone

  /** The challenges of the connections made, what happened on one of them, and how often a message was handled. */
  function Challenges(es: seq<HubEvent>): seq<nat> {
    if es == [] then []
    else
      var before, last := es[..|es| - 1], es[|es| - 1];
      Challenges(before) + if last.Connect? then [last.challenge] else []
  }

  function OfLink(es: seq<HubEvent>, i: nat): seq<NetEvent> {
    if es == [] then []
    else
      var before, last := es[..|es| - 1], es[|es| - 1];
      OfLink(before, i) + if last.OnLink? && last.i == i then [last.ne] else []
  }

  function Handlings(es: seq<HubEvent>): nat {
    if es == [] then 0
    else
      var before, last := es[..|es| - 1], es[|es| - 1];
      Handlings(before) + if last.Handle? then 1 else 0
  }

  /** A connection is where its own events bring it. */
  ghost predicate OwnRun(n: Net, challenge: nat, nes: seq<NetEvent>) {
    challenge < TWO64 && CanRunNet(Initial(challenge), nes) && n == RunNet(Initial(challenge), nes)
  }

  ghost predicate Follows(h: Hub, es: seq<HubEvent>) {
    && |h.links| == |Challenges(es)| && |h.handled| == Handlings(es)
    && (forall i :: 0 <= i < |h.links| ==> OwnRun(h.links[i], Challenges(es)[i], OfLink(es, i)))
    && (forall i :: i >= |h.links| ==> OfLink(es, i) == [])
  }

  lemma Next(es: seq<HubEvent>, e: HubEvent, i: nat)
    ensures Challenges(es + [e]) == Challenges(es) + if e.Connect? then [e.challenge] else []
    ensures OfLink(es + [e], i) == if e.OnLink? && e.i == i then OfLink(es, i) + [e.ne] else OfLink(es, i)
    ensures Handlings(es + [e]) == Handlings(es) + if e.Handle? then 1 else 0
  {
    assert (es + [e])[..|es|] == es;
  }

  lemma StartsAlone(challenge: nat)
    requires challenge < TWO64
    ensures OwnRun(Initial(challenge), challenge, [])
  {
  }

  lemma OwnStep(n: Net, challenge: nat, nes: seq<NetEvent>, ne: NetEvent)
    requires OwnRun(n, challenge, nes) && NetEnabled(n, ne)
    ensures OwnRun(NetStep(n, ne), challenge, nes + [ne])
  {
    hide NetEnabled, NetStep, CanRunNet, RunNet, Initial;
    NetExtend(Initial(challenge), nes, ne);
  }

  lemma ConnectFollows(h: Hub, es: seq<HubEvent>, challenge: nat)
    requires Follows(h, es) && challenge < TWO64
    ensures Follows(HubStep(h, Connect(challenge)), es + [Connect(challenge)])
  {
    hide OwnRun, Challenges, OfLink, Handlings, Initial;
    var h', e := HubStep(h, Connect(challenge)), Connect(challenge);
    StartsAlone(challenge);
    Next(es, e, |h.links|);
    forall i | 0 <= i < |h'.links|
      ensures OwnRun(h'.links[i], Challenges(es + [e])[i], OfLink(es + [e], i))
    {
      Next(es, e, i);
    }
    forall i | i >= |h'.links|
      ensures OfLink(es + [e], i) == []
    {
      Next(es, e, i);
    }
  }

  lemma OnLinkFollows(h: Hub, es: seq<HubEvent>, i: nat, ne: NetEvent)
    requires Follows(h, es) && HubEnabled(h, OnLink(i, ne))
    ensures Follows(HubStep(h, OnLink(i, ne)), es + [OnLink(i, ne)])
  {
    hide OwnRun, Challenges, OfLink, Handlings, NetStep, NetEnabled, Tag, Arrived;
    var h', e := HubStep(h, OnLink(i, ne)), OnLink(i, ne);
    OwnStep(h.links[i], Challenges(es)[i], OfLink(es, i), ne);
    Next(es, e, i);
    forall j | 0 <= j < |h'.links|
      ensures OwnRun(h'.links[j], Challenges(es + [e])[j], OfLink(es + [e], j))
    {
      Next(es, e, j);
    }
    forall j | j >= |h'.links|
      ensures OfLink(es + [e], j) == []
    {
      Next(es, e, j);
    }
  }

  lemma HandleFollows(h: Hub, es: seq<HubEvent>)
    requires Follows(h, es) && h.inbox != []
    ensures Follows(HubStep(h, Handle), es + [Handle])
  {
    hide OwnRun, Challenges, OfLink, Handlings;
    Next(es, Handle, 0);
    forall j: nat
      ensures OfLink(es + [Handle], j) == OfLink(es, j)
    {
      Next(es, Handle, j);
    }
  }

  lemma FollowsNext(h: Hub, es: seq<HubEvent>, e: HubEvent)
    requires Follows(h, es) && HubEnabled(h, e)
    ensures Follows(HubStep(h, e), es + [e])
  {
    hide Follows, HubStep;
    match e
    case Connect(challenge) => ConnectFollows(h, es, challenge);
    case OnLink(i, ne) => OnLinkFollows(h, es, i, ne);
    case Handle => HandleFollows(h, es);
  }

  lemma {:induction false} FollowsRun(h: Hub, earlier: seq<HubEvent>, es: seq<HubEvent>, g: nat)
    requires Follows(h, earlier) && CanRunHub(h, es, g)
    ensures Follows(RunHub(h, es, g), earlier + es)
    decreases |es|
  {
    hide Follows, HubStep, HubEnabled, HubGated;
    OneByOne(earlier, es);
    if es != [] {
      FollowsNext(h, earlier, es[0]);
      FollowsRun(HubStep(h, es[0]), earlier + [es[0]], es[1..], g);
    }
  }

  /**
   * The connections are independent: over every run connection `i` is exactly where its own events
   * bring it, from its own challenge, whatever the others do; and as many messages were handled as
   * `update` has popped.
   */
  lemma RunFollowsEvents(es: seq<HubEvent>, g: nat)
    requires CanRunHub(EMPTY_HUB, es, g)
    ensures var h := RunHub(EMPTY_HUB, es, g);
            && |h.links| == |Challenges(es)| && |h.handled| == Handlings(es)
            && forall i :: 0 <= i < |h.links| ==> OwnRun(h.links[i], Challenges(es)[i], OfLink(es, i))
  {
    assert Follows(EMPTY_HUB, []);
    NothingFirst(es);
    hide RunHub, CanRunHub, Challenges, OfLink, Handlings, OwnRun, EMPTY_HUB;
    FollowsRun(EMPTY_HUB, [], es, g);
  }

  /** The shared queue is one queue: what has come into it once stays in its place, handled or not. */
  lemma {:induction false} InboxOnlyGrows(h: Hub, es: seq<HubEvent>, g: nat)
    requires CanRunHub(h, es, g)
    ensures var h' := RunHub(h, es, g); h.handled + h.inbox <= h'.handled + h'.inbox && h.handled <= h'.handled
    decreases |es|
  {
    if es != [] {
      GrowsByStep(h, es[0]);
      hide HubStep, HubEnabled, HubGated;
      InboxOnlyGrows(HubStep(h, es[0]), es[1..], g);
    }
  }

  lemma GrowsByStep(h: Hub, e: HubEvent)
    requires HubEnabled(h, e)
    ensures var h' := HubStep(h, e); h.handled + h.inbox <= h'.handled + h'.inbox && h.handled <= h'.handled
  {
    hide NetStep, NetEnabled, Tag, Arrived;
    if e.Handle? {
      assert h.handled + [h.inbox[0]] + h.inbox[1..] == h.handled + h.inbox;
    }
  }
}

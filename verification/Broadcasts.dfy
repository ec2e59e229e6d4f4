/**
 * A server with its table of connections, its broadcasts and all its clients at once: what
 * `sendMessageToAllClients` hands out, followed to the messages the clients receive. `SendData`
 * posts a task; the tasks of one connection run in the order in which they were posted.
 */
module Broadcasts {
  import opened Arith
  import opened Wrappers
  import opened Messages
  import opened Framing
  import opened Connections
  import opened EndToEnd
  import opened SharedInbox
  import opened Draining
  import ServerTable

  /** A message given to the server to send, and the connections it was meant for. */
  datatype Entry = Entry(msg: Message, to: set<nat>)

  /** The table, the connections made so far with their clients, the posted tasks of each, and all there was to send. */
  datatype Cast = Cast(table: ServerTable.Table<nat, Message>, links: seq<Net>, tasks: seq<seq<Message>>, log: seq<Entry>)

  function EmptyCast(start: nat): Cast {
    Cast(ServerTable.EmptyTable(start), [], [], [])
  }

  datatype CastEvent =
    | Accept(challenge: nat, allowed: bool)  // a client connects; the application allows or denies it
    | ToAll(ignore: Option<nat>, m: Message) // sendMessageToAllClients
    | ToOne(client: Option<nat>, m: Message) // sendMessageToClient
    | Direct(i: nat, m: Message)             // the application calls `SendData` of connection `i`
    | RunTask(i: nat)                        // the oldest posted task of connection `i` runs
    | OnConnection(i: nat, ne: NetEvent)     // anything else happens on connection `i`

  /** The event a task is for its connection. */
  function Task(m: Message): NetEvent {
    At(Server, Post(m))
  }

  predicate IsTask(ne: NetEvent) {
    ne.owner.Server? && ne.e.Post?
  }

  predicate CastEnabled(s: Cast, e: CastEvent) {
    match e
    case Accept(challenge, _) => challenge < TWO64
    case ToAll(_, m) => m.Valid()
    case ToOne(_, m) => m.Valid()
    case Direct(i, m) => i < |s.tasks| && m.Valid()
    case RunTask(i) => i < |s.links| && i < |s.tasks| && s.tasks[i] != [] && NetEnabled(s.links[i], Task(s.tasks[i][0]))
    case OnConnection(i, ne) => i < |s.links| && NetEnabled(s.links[i], ne) && !IsTask(ne)
  }

  /** The premise, for the connections of `g` only. */
  predicate CastGated(s: Cast, e: CastEvent, g: set<nat>)
    requires CastEnabled(s, e)
  {
    match e
    case RunTask(i) => i in g ==> Gated(s.links[i], Task(s.tasks[i][0]))
    case OnConnection(i, ne) => i in g ==> Gated(s.links[i], ne)
    case _ => true
  }

  /** Every call of `SendData` posts a task. */
  function Posted(tasks: seq<seq<Message>>, calls: seq<ServerTable.Call<nat, Message>>): (r: seq<seq<Message>>)
    ensures |r| == |tasks|
  {
    seq(|tasks|, i requires 0 <= i < |tasks| => tasks[i] + ServerTable.SentTo(calls, i))
  }

  /** The calls a step of the table has made. */
  function NewCalls(t: ServerTable.Table<nat, Message>, t': ServerTable.Table<nat, Message>):
    seq<ServerTable.Call<nat, Message>>
  {
    if |t.calls| <= |t'.calls| then t'.calls[|t.calls|..] else []
  }

  /** The connected entries of the table without the ignored one. */
  function Recipients(t: ServerTable.Table<nat, Message>, ignore: Option<nat>): set<nat> {
    set p | p in t.open && Some(p) in t.conns && Some(p) != ignore
  }

  function ToAllStep(s: Cast, ignore: Option<nat>, m: Message): Cast {
    var t := ServerTable.Step(s.table, ServerTable.SendToAll(ignore, m));
    Cast(t, s.links, Posted(s.tasks, NewCalls(s.table, t)), s.log + [Entry(m, Recipients(s.table, ignore))])
  }

  function ToOneStep(s: Cast, client: Option<nat>, m: Message): Cast {
    var t := ServerTable.Step(s.table, ServerTable.SendTo(client, m));
    var to := if ServerTable.Connected(client, s.table.open) then {client.value} else {};
    Cast(t, s.links, Posted(s.tasks, NewCalls(s.table, t)), s.log + [Entry(m, to)])
  }

  function AcceptStep(s: Cast, challenge: nat, allowed: bool): Cast
    requires challenge < TWO64
  {
    Cast(ServerTable.Step(s.table, ServerTable.Event.Accept(|s.links|, true, allowed)),
         s.links + [Initial(challenge)], s.tasks + [[]], s.log)
  }

  function DirectStep(s: Cast, i: nat, m: Message): Cast
    requires i < |s.tasks|
  {
    s.(tasks := s.tasks[i := s.tasks[i] + [m]], log := s.log + [Entry(m, {i})])
  }

  function RunTaskStep(s: Cast, i: nat): Cast
    requires i < |s.links| && i < |s.tasks| && s.tasks[i] != [] && NetEnabled(s.links[i], Task(s.tasks[i][0]))
  {
    s.(links := s.links[i := NetStep(s.links[i], Task(s.tasks[i][0]))], tasks := s.tasks[i := s.tasks[i][1..]])
  }

  function OnConnectionStep(s: Cast, i: nat, ne: NetEvent): Cast
    requires i < |s.links| && NetEnabled(s.links[i], ne)
  {
    var n := NetStep(s.links[i], ne);
    s.(links := s.links[i := n],
       table := if n.server.open then s.table else ServerTable.Step(s.table, ServerTable.SocketClosed(i)))
  }

  function CastStep(s: Cast, e: CastEvent): Cast
    requires CastEnabled(s, e)
  {
    match e
    case Accept(challenge, allowed) => AcceptStep(s, challenge, allowed)
    case ToAll(ignore, m) => ToAllStep(s, ignore, m)
    case ToOne(client, m) => ToOneStep(s, client, m)
    case Direct(i, m) => DirectStep(s, i, m)
    case RunTask(i) => RunTaskStep(s, i)
    case OnConnection(i, ne) => OnConnectionStep(s, i, ne)
  }

  predicate CanRunCast(s: Cast, es: seq<CastEvent>, g: set<nat>)
    decreases |es|
  {
    es != [] ==> CastEnabled(s, es[0]) && CastGated(s, es[0], g) && CanRunCast(CastStep(s, es[0]), es[1..], g)
  }

  function RunCast(s: Cast, es: seq<CastEvent>, g: set<nat>): Cast
    requires CanRunCast(s, es, g)
    decreases |es|
  {
    if es == [] then s else RunCast(CastStep(s, es[0]), es[1..], g)
  }

  // ---------------------------------------------------------------- what is meant for one connection

  /** The messages of the log that were meant for connection `i`, in order. */
  function To(log: seq<Entry>, i: nat): seq<Message> {
    if log == [] then []
    else
      var last := log[|log| - 1];
      To(log[..|log| - 1], i) + if i in last.to then [last.msg] else []
  }

  lemma ToAppend(log: seq<Entry>, e: Entry, i: nat)
    ensures To(log + [e], i) == To(log, i) + if i in e.to then [e.msg] else []
  {
    assert (log + [e])[..|log|] == log;
  }

  /** Where entry `k` of the log stands among what was meant for connection `i`. */
  function Place(log: seq<Entry>, k: nat, i: nat): nat
    requires k < |log|
  {
    |To(log[..k], i)|
  }

  lemma {:induction false} PlaceHolds(log: seq<Entry>, k: nat, i: nat)
    requires k < |log| && i in log[k].to
    ensures Place(log, k, i) < |To(log, i)| && To(log, i)[Place(log, k, i)] == log[k].msg
  {
    var init := log[..|log| - 1];
    if k < |init| {
      assert init[..k] == log[..k];
      PlaceHolds(init, k, i);
    }
  }

  /** Later entries stand later. */
  lemma {:induction false} PlacesInOrder(log: seq<Entry>, k: nat, l: nat, i: nat)
    requires k < l < |log| && i in log[k].to
    ensures Place(log, k, i) < Place(log, l, i)
  {
    assert log[..l][..k] == log[..k];
    PlaceHolds(log[..l], k, i);
  }

  // ---------------------------------------------------------------- the invariant

  ghost predicate LinksIn(links: seq<Net>, g: set<nat>) {
    forall i :: 0 <= i < |links| ==> LinkInv(links[i], i in g)
  }

  /** The table knows the connections made, and which of them are open. */
  ghost predicate TableFits(t: ServerTable.Table<nat, Message>, links: seq<Net>) {
    && ServerTable.Shape(t)
    && (forall p: nat :: p in t.made ==> p < |links|)
    && (forall p: nat :: p in t.open <==> p < |links| && links[p].server.open)
  }

  /** What has been posted on a connection and what is still to be is what was meant for it. */
  ghost predicate InOrder(links: seq<Net>, tasks: seq<seq<Message>>, log: seq<Entry>) {
    && |tasks| == |links|
    && (forall k :: 0 <= k < |log| ==> forall p :: p in log[k].to ==> p < |links|)
    && (forall i :: 0 <= i < |links| ==> links[i].server.posted + tasks[i] == To(log, i))
  }

  ghost predicate CastInv(s: Cast, g: set<nat>) {
    LinksIn(s.links, g) && TableFits(s.table, s.links) && InOrder(s.links, s.tasks, s.log)
  }

  // ---------------------------------------------------------------- every step keeps it

  /** A message for the connections of `to`, posted as a task of exactly these. */
  lemma EntryPosted(links: seq<Net>, tasks: seq<seq<Message>>, tasks': seq<seq<Message>>, log: seq<Entry>, e: Entry)
    requires InOrder(links, tasks, log) && |tasks'| == |tasks|
    requires forall p :: p in e.to ==> p < |links|
    requires forall i :: 0 <= i < |tasks| ==> tasks'[i] == tasks[i] + if i in e.to then [e.msg] else []
    ensures InOrder(links, tasks', log + [e])
  {
    hide To;
    forall i | 0 <= i < |links|
      ensures links[i].server.posted + tasks'[i] == To(log + [e], i)
    {
      ToAppend(log, e, i);
      assert links[i].server.posted + (tasks[i] + if i in e.to then [e.msg] else [])
          == links[i].server.posted + tasks[i] + if i in e.to then [e.msg] else [];
    }
  }

  /** A broadcast posts one task for each of its recipients, and keeps the table in shape. */
  lemma BroadcastFits(t: ServerTable.Table<nat, Message>, ignore: Option<nat>, m: Message, links: seq<Net>)
    requires TableFits(t, links)
    ensures var t' := ServerTable.Step(t, ServerTable.SendToAll(ignore, m));
            TableFits(t', links) && NewCalls(t, t') == ServerTable.Calls(t.conns, t.open, ignore, m)
  {
    var calls := ServerTable.Calls(t.conns, t.open, ignore, m);
    ServerTable.BroadcastShape(t, ignore, m);
    hide ServerTable.Step, ServerTable.Shape, ServerTable.Calls, ServerTable.Live;
    assert (t.calls + calls)[|t.calls|..] == calls;
  }

  lemma AllPosted(s: Cast, ignore: Option<nat>, m: Message)
    requires TableFits(s.table, s.links) && InOrder(s.links, s.tasks, s.log)
    ensures var calls := ServerTable.Calls(s.table.conns, s.table.open, ignore, m);
            InOrder(s.links, Posted(s.tasks, calls), s.log + [Entry(m, Recipients(s.table, ignore))])
  {
    var t, to := s.table, Recipients(s.table, ignore);
    var calls := ServerTable.Calls(t.conns, t.open, ignore, m);
    var tasks := Posted(s.tasks, calls);
    assert ServerTable.Distinct(t.conns) && forall p :: p in to ==> p < |s.links|;
    hide InOrder, TableFits, To, ServerTable.SentTo, ServerTable.Calls, ServerTable.Distinct;
    forall i | 0 <= i < |s.tasks|
      ensures tasks[i] == s.tasks[i] + if i in to then [m] else []
    {
      ServerTable.OneCallEach(t.conns, t.open, ignore, m, i);
    }
    hide Posted, Recipients;
    EntryPosted(s.links, s.tasks, tasks, s.log, Entry(m, to));
  }

  lemma ToAllKeeps(s: Cast, ignore: Option<nat>, m: Message, g: set<nat>)
    requires CastInv(s, g)
    ensures CastInv(ToAllStep(s, ignore, m), g)
  {
    hide LinksIn, TableFits, InOrder, Posted, Recipients, NewCalls, ServerTable.Step;
    BroadcastFits(s.table, ignore, m, s.links);
    AllPosted(s, ignore, m);
  }

  /** A send to one client calls `SendData` at most once, and leaves the table as it was. */
  lemma OneSend(t: ServerTable.Table<nat, Message>, client: Option<nat>, m: Message, links: seq<Net>)
    requires TableFits(t, links)
    ensures var t' := ServerTable.Step(t, ServerTable.SendTo(client, m));
            TableFits(t', links) && t.calls <= t'.calls && |t'.calls| == |t.calls| + 1 &&
            t'.calls[|t.calls|] == if ServerTable.Connected(client, t.open) then ServerTable.SendData(client.value, m)
                                   else ServerTable.OnClientDisconnect(client)
  {
    ServerTable.SendToShape(t, client, m);
    hide ServerTable.Step, ServerTable.Shape, ServerTable.WithoutNulls;
  }

  lemma ToOneKeeps(s: Cast, client: Option<nat>, m: Message, g: set<nat>)
    requires CastInv(s, g)
    ensures CastInv(ToOneStep(s, client, m), g)
  {
    var t' := ServerTable.Step(s.table, ServerTable.SendTo(client, m));
    OneSend(s.table, client, m, s.links);
    hide LinksIn, ServerTable.Step;
    OnePosted(s, client, m, t'.calls);
    hide TableFits, InOrder, Posted, ServerTable.Connected;
  }

  lemma OnePosted(s: Cast, client: Option<nat>, m: Message, calls: seq<ServerTable.Call<nat, Message>>)
    requires TableFits(s.table, s.links) && InOrder(s.links, s.tasks, s.log) && |calls| == |s.table.calls| + 1
    requires calls[|s.table.calls|] == if ServerTable.Connected(client, s.table.open) then ServerTable.SendData(client.value, m)
                                       else ServerTable.OnClientDisconnect(client)
    ensures var to := if ServerTable.Connected(client, s.table.open) then {client.value} else {};
            InOrder(s.links, Posted(s.tasks, calls[|s.table.calls|..]), s.log + [Entry(m, to)])
  {
    var to: set<nat> := if ServerTable.Connected(client, s.table.open) then {client.value} else {};
    var call := calls[|s.table.calls|];
    assert calls[|s.table.calls|..] == [call];
    assert forall p :: p in to ==> p < |s.links|;
    var tasks := Posted(s.tasks, [call]);
    hide TableFits, To, ServerTable.SentTo, InOrder;
    forall i | 0 <= i < |s.tasks|
      ensures tasks[i] == s.tasks[i] + if i in to then [m] else []
    {
      ServerTable.SentByOne<nat, Message>(call, i);
    }
    hide Posted, ServerTable.Connected;
    EntryPosted(s.links, s.tasks, tasks, s.log, Entry(m, to));
  }

  lemma DirectKeeps(s: Cast, i: nat, m: Message, g: set<nat>)
    requires CastInv(s, g) && i < |s.tasks|
    ensures CastInv(DirectStep(s, i, m), g)
  {
    hide LinksIn, To, TableFits;
    EntryPosted(s.links, s.tasks, s.tasks[i := s.tasks[i] + [m]], s.log, Entry(m, {i}));
  }

  lemma {:induction false} MeantForNobody(log: seq<Entry>, i: nat)
    requires forall k :: 0 <= k < |log| ==> i !in log[k].to
    ensures To(log, i) == []
  {
    if log != [] {
      MeantForNobody(log[..|log| - 1], i);
    }
  }

  /** A new connection, for which nothing was meant yet. */
  lemma NewConnection(links: seq<Net>, tasks: seq<seq<Message>>, log: seq<Entry>, n: Net)
    requires InOrder(links, tasks, log) && n.server.posted == []
    ensures InOrder(links + [n], tasks + [[]], log)
  {
    MeantForNobody(log, |links|);
    hide To;
  }

  lemma NewIsOpen(open: set<nat>, links: seq<Net>, n: Net)
    requires (forall p: nat :: p in open <==> p < |links| && links[p].server.open) && n.server.open
    ensures forall p: nat :: p in open + {|links|} <==> p < |links + [n]| && (links + [n])[p].server.open
  {
  }

  lemma NewInTable(t: ServerTable.Table<nat, Message>, links: seq<Net>, n: Net, allowed: bool)
    requires TableFits(t, links) && n.server.open
    ensures TableFits(ServerTable.Step(t, ServerTable.Event.Accept(|links|, true, allowed)), links + [n])
  {
    ServerTable.AcceptShape(t, |links|, true, allowed);
    NewIsOpen(t.open, links, n);
    hide ServerTable.Shape, ServerTable.Number;
  }

  lemma NewInPlace(links: seq<Net>, n: Net, g: set<nat>)
    requires LinksIn(links, g) && LinkInv(n, |links| in g)
    ensures LinksIn(links + [n], g)
  {
    hide LinkInv;
  }

  lemma AcceptKeeps(s: Cast, challenge: nat, allowed: bool, g: set<nat>)
    requires CastInv(s, g) && challenge < TWO64
    ensures CastInv(AcceptStep(s, challenge, allowed), g)
  {
    var n := Initial(challenge);
    InitialLink(challenge);
    assert n.server.open && n.server.posted == [];
    hide LinkInv, Initial, LinksIn, TableFits, InOrder, ServerTable.Step;
    NewInPlace(s.links, n, g);
    NewInTable(s.table, s.links, n, allowed);
    NewConnection(s.links, s.tasks, s.log, n);
  }

  /** A connection changes, and with it what is posted there or still to be. */
  lemma LinkReplaced(links: seq<Net>, tasks: seq<seq<Message>>, log: seq<Entry>, i: nat, n: Net, left: seq<Message>)
    requires InOrder(links, tasks, log) && i < |links|
    requires n.server.posted + left == links[i].server.posted + tasks[i]
    ensures InOrder(links[i := n], tasks[i := left], log)
  {
    hide To;
  }

  lemma LinkInPlace(links: seq<Net>, i: nat, n: Net, g: set<nat>)
    requires LinksIn(links, g) && i < |links| && LinkInv(n, i in g)
    ensures LinksIn(links[i := n], g)
  {
    hide LinkInv;
  }

  /** The table when connection `i` has changed, and may have been closed. */
  lemma TableFollows(t: ServerTable.Table<nat, Message>, links: seq<Net>, i: nat, n: Net)
    requires TableFits(t, links) && i < |links| && (n.server.open ==> links[i].server.open)
    ensures var t' := if n.server.open then t else ServerTable.Step(t, ServerTable.SocketClosed(i));
            TableFits(t', links[i := n])
  {
    var closed := ServerTable.Step(t, ServerTable.SocketClosed(i));
    assert closed == t.(open := t.open - {i});
    hide ServerTable.Step;
    assert ServerTable.Shape(closed);
    hide ServerTable.Shape;
  }

  lemma RunTaskKeeps(s: Cast, i: nat, g: set<nat>)
    requires CastInv(s, g) && i < |s.links| && i < |s.tasks| && s.tasks[i] != []
    requires NetEnabled(s.links[i], Task(s.tasks[i][0])) && (i in g ==> Gated(s.links[i], Task(s.tasks[i][0])))
    ensures CastInv(RunTaskStep(s, i), g)
  {
    var m := s.tasks[i][0];
    var link, n := s.links[i], NetStep(s.links[i], Task(m));
    hide LinkInv, NetStep, NetEnabled, Gated, Task, TableFits, InOrder;
    LinkStep(link, Task(m), i in g);
    TaskRuns(link, m);
    LinkInPlace(s.links, i, n, g);
    hide LinksIn;
    SameInTable(s.table, s.links, i, n);
    FirstRuns(link.server.posted, s.tasks[i]);
    LinkReplaced(s.links, s.tasks, s.log, i, n, s.tasks[i][1..]);
  }

  lemma SameInTable(t: ServerTable.Table<nat, Message>, links: seq<Net>, i: nat, n: Net)
    requires TableFits(t, links) && i < |links| && n.server.open == links[i].server.open
    ensures TableFits(t, links[i := n])
  {
    hide ServerTable.Shape;
  }

  lemma FirstRuns(posted: seq<Message>, tasks: seq<Message>)
    requires tasks != []
    ensures posted + [tasks[0]] + tasks[1..] == posted + tasks
  {
  }

  lemma TaskRuns(n: Net, m: Message)
    requires NetEnabled(n, Task(m))
    ensures NetStep(n, Task(m)).server.posted == n.server.posted + [m]
    ensures NetStep(n, Task(m)).server.open == n.server.open
  {
    hide Typed;
  }

  lemma OtherStep(n: Net, ne: NetEvent)
    requires NetEnabled(n, ne) && !IsTask(ne)
    ensures NetStep(n, ne).server.posted == n.server.posted
    ensures NetStep(n, ne).server.open ==> n.server.open
  {
    hide Step, Enabled, Typed;
    StepHistory(n.End(ne.owner), ne.e);
    NeverReopened(n.End(ne.owner), ne.e);
  }

  lemma NeverReopened(c: Conn, e: Connections.Event)
    requires Typed(c) && Enabled(c, e)
    ensures Step(c, e).open ==> c.open
  {
    if !c.open {
      hide Step, Enabled, Typed;
      ClosedIsSilent(c, e);
    }
  }

  lemma SamePosted(links: seq<Net>, tasks: seq<seq<Message>>, log: seq<Entry>, i: nat, n: Net)
    requires InOrder(links, tasks, log) && i < |links| && n.server.posted == links[i].server.posted
    ensures InOrder(links[i := n], tasks, log)
  {
    hide To;
  }

  lemma OnConnectionKeeps(s: Cast, i: nat, ne: NetEvent, g: set<nat>)
    requires CastInv(s, g) && i < |s.links| && NetEnabled(s.links[i], ne) && !IsTask(ne)
    requires i in g ==> Gated(s.links[i], ne)
    ensures CastInv(OnConnectionStep(s, i, ne), g)
  {
    var link := s.links[i];
    assert LinkInv(link, i in g);
    hide LinkInv, NetStep, NetEnabled, Gated, IsTask, TableFits, InOrder, LinksIn, ServerTable.Step;
    LinkStep(link, ne, i in g);
    OtherStep(link, ne);
    var n := NetStep(link, ne);
    LinkInPlace(s.links, i, n, g);
    TableFollows(s.table, s.links, i, n);
    SamePosted(s.links, s.tasks, s.log, i, n);
  }

  lemma CastInvStep(s: Cast, e: CastEvent, g: set<nat>)
    requires CastInv(s, g) && CastEnabled(s, e) && CastGated(s, e, g)
    ensures CastInv(CastStep(s, e), g)
  {
    hide CastInv, AcceptStep, ToAllStep, ToOneStep, DirectStep, RunTaskStep, OnConnectionStep;
    match e {
      case Accept(challenge, allowed) => AcceptKeeps(s, challenge, allowed, g);
      case ToAll(ignore, m) => ToAllKeeps(s, ignore, m, g);
      case ToOne(client, m) => ToOneKeeps(s, client, m, g);
      case Direct(i, m) => DirectKeeps(s, i, m, g);
      case RunTask(i) => RunTaskKeeps(s, i, g);
      case OnConnection(i, ne) => OnConnectionKeeps(s, i, ne, g);
    }
  }

  lemma {:induction false} CastInvRun(s: Cast, es: seq<CastEvent>, g: set<nat>)
    requires CastInv(s, g) && CanRunCast(s, es, g)
    ensures CastInv(RunCast(s, es, g), g)
    decreases |es|
  {
    if es != [] {
      CastInvStep(s, es[0], g);
      hide CastInv, CastStep, CastEnabled, CastGated;
      CastInvRun(CastStep(s, es[0]), es[1..], g);
    }
  }

  lemma EmptyCastInv(start: nat, g: set<nat>)
    ensures CastInv(EmptyCast(start), g)
  {
  }

  // ---------------------------------------------------------------- what the clients receive

  /** All that was meant for connection `i` has been posted and sent, and its client has read it. */
  predicate Settled(s: Cast, i: nat)
    requires i < |s.links| && i < |s.tasks|
  {
    var n := s.links[i];
    s.tasks[i] == [] && n.server.queue == [] && n.client.receivedBytes == n.server.sentBytes
  }

  /**
   * From the table to the client, over every run of a server with any number of clients: client
   * `i` receives, in order, a prefix of the messages that were meant for it - those sent to it
   * alone and every broadcast at whose time its connection was in the table, open and not ignored -
   * each once, and all of them once nothing is left to be posted, sent or read.
   */
  lemma ClientFollowsLog(start: nat, es: seq<CastEvent>, i: nat)
    requires CanRunCast(EmptyCast(start), es, {i}) && i < |RunCast(EmptyCast(start), es, {i}).links|
    ensures var s := RunCast(EmptyCast(start), es, {i});
            && i < |s.tasks|
            && Views(s.links[i].client.reader.out) <= Views(To(s.log, i))
            && (Settled(s, i) ==> Views(s.links[i].client.reader.out) == Views(To(s.log, i)))
  {
    EmptyCastInv(start, {i});
    CastInvRun(EmptyCast(start), es, {i});
    hide RunCast, CanRunCast, CastInv;
    FollowsLog(RunCast(EmptyCast(start), es, {i}), i, {i});
  }

  lemma FollowsLog(s: Cast, i: nat, g: set<nat>)
    requires CastInv(s, g) && i < |s.links| && i in g
    ensures i < |s.tasks| && Views(s.links[i].client.reader.out) <= Views(To(s.log, i))
    ensures Settled(s, i) ==> Views(s.links[i].client.reader.out) == Views(To(s.log, i))
  {
    var n := s.links[i];
    assert LinkInv(n, true);
    hide TableFits, LinksIn, To;
    ServerDelivers(n);
    hide LinkInv;
    PrefixViews(n.server.posted, To(s.log, i));
    hide Views;
  }

  lemma ServerDelivers(n: Net)
    requires LinkInv(n, true)
    ensures Views(n.client.reader.out) <= Views(n.server.posted)
    ensures n.server.queue == [] && n.client.receivedBytes == n.server.sentBytes ==>
              Views(n.client.reader.out) == Views(n.server.posted)
  {
    hide Inv, SentInv;
    Delivered(n.server, n.client);
  }

  /** Messages `k` and `l` of the log stand in `received` at their places, as far as it goes. */
  ghost predicate HoldsBoth(received: seq<View>, log: seq<Entry>, k: nat, l: nat, i: nat)
    requires k < |log| && l < |log|
  {
    var x, y := Place(log, k, i), Place(log, l, i);
    && x < y
    && (x < |received| ==> received[x] == ViewOf(log[k].msg))
    && (y < |received| ==> received[y] == ViewOf(log[l].msg))
  }

  /**
   * Any two clients agree, over every run of a server with any number of clients, the others
   * behaving as they like: of two messages meant for both - two broadcasts, say - both clients
   * receive the one that was to be sent first before the other.
   */
  lemma BroadcastsInOneOrder(start: nat, es: seq<CastEvent>, i: nat, j: nat, k: nat, l: nat)
    requires CanRunCast(EmptyCast(start), es, {i, j})
    requires var s := RunCast(EmptyCast(start), es, {i, j});
             i < |s.links| && j < |s.links| && k < l < |s.log| && {i, j} <= s.log[k].to * s.log[l].to
    ensures var s := RunCast(EmptyCast(start), es, {i, j});
            && HoldsBoth(Views(s.links[i].client.reader.out), s.log, k, l, i)
            && HoldsBoth(Views(s.links[j].client.reader.out), s.log, k, l, j)
  {
    EmptyCastInv(start, {i, j});
    CastInvRun(EmptyCast(start), es, {i, j});
    var s := RunCast(EmptyCast(start), es, {i, j});
    hide RunCast, CanRunCast, CastInv, HoldsBoth;
    FollowsLog(s, i, {i, j});
    FollowsLog(s, j, {i, j});
    assert i in s.log[k].to && i in s.log[l].to && j in s.log[k].to && j in s.log[l].to;
    HeldInOrder(Views(s.links[i].client.reader.out), s.log, k, l, i);
    HeldInOrder(Views(s.links[j].client.reader.out), s.log, k, l, j);
  }

  lemma HeldInOrder(received: seq<View>, log: seq<Entry>, k: nat, l: nat, i: nat)
    requires k < l < |log| && i in log[k].to && i in log[l].to
    requires received <= Views(To(log, i))
    ensures HoldsBoth(received, log, k, l, i)
  {
    PlaceHolds(log, k, i);
    PlaceHolds(log, l, i);
    PlacesInOrder(log, k, l, i);
    hide To, Place, ViewOf;
  }

  // ---------------------------------------------------------------- the server, from the events alone

  /** The messages given to the server to send, in order. */
  function Given(es: seq<CastEvent>): seq<Message> {
    if es == [] then []
    else
      var before, last := es[..|es| - 1], es[|es| - 1];
      Given(before) + if last.ToAll? || last.ToOne? || last.Direct? then [last.m] else []
  }

  /** The challenges of the connections made. */
  function Challenges(es: seq<CastEvent>): seq<nat> {
    if es == [] then []
    else
      var before, last := es[..|es| - 1], es[|es| - 1];
      Challenges(before) + if last.Accept? then [last.challenge] else []
  }

  /** How many tasks of connection `i` have run. */
  function TasksRun(es: seq<CastEvent>, i: nat): nat {
    if es == [] then 0
    else
      var before, last := es[..|es| - 1], es[|es| - 1];
      TasksRun(before, i) + if last == RunTask(i) then 1 else 0
  }

  /** What happened on connection `i`, if its tasks bring the messages `ms` in order. */
  function OfConnection(es: seq<CastEvent>, i: nat, ms: seq<Message>): seq<NetEvent> {
    if es == [] then []
    else
      var before, last := es[..|es| - 1], es[|es| - 1];
      OfConnection(before, i, ms) +
      if last == RunTask(i) && TasksRun(before, i) < |ms| then [Task(ms[TasksRun(before, i)])]
      else if last.OnConnection? && last.i == i then [last.ne]
      else []
  }

  function Entries(log: seq<Entry>): (ms: seq<Message>)
    ensures |ms| == |log|
  {
    seq(|log|, k requires 0 <= k < |log| => log[k].msg)
  }

  lemma Next(es: seq<CastEvent>, e: CastEvent, i: nat, ms: seq<Message>)
    ensures Given(es + [e]) == Given(es) + if e.ToAll? || e.ToOne? || e.Direct? then [e.m] else []
    ensures Challenges(es + [e]) == Challenges(es) + if e.Accept? then [e.challenge] else []
    ensures TasksRun(es + [e], i) == TasksRun(es, i) + if e == RunTask(i) then 1 else 0
    ensures OfConnection(es + [e], i, ms) ==
            if e == RunTask(i) && TasksRun(es, i) < |ms| then OfConnection(es, i, ms) + [Task(ms[TasksRun(es, i)])]
            else if e.OnConnection? && e.i == i then OfConnection(es, i, ms) + [e.ne]
            else OfConnection(es, i, ms)
  {
    assert (es + [e])[..|es|] == es;
  }

  /** What is given later does not change what the earlier tasks brought. */
  lemma {:induction false} SameTasks(es: seq<CastEvent>, i: nat, ms: seq<Message>, more: seq<Message>)
    requires TasksRun(es, i) <= |ms|
    ensures OfConnection(es, i, ms + more) == OfConnection(es, i, ms)
  {
    if es != [] {
      SameTasks(es[..|es| - 1], i, ms, more);
    }
  }

  /** Connection `i` is where its own events and tasks bring it; as many tasks have run as messages were posted. */
  ghost predicate OwnCourse(n: Net, es: seq<CastEvent>, i: nat, challenge: nat, ms: seq<Message>) {
    && OwnRun(n, challenge, OfConnection(es, i, ms))
    && |n.server.posted| == TasksRun(es, i) <= |ms|
  }

  ghost predicate NoCourse(es: seq<CastEvent>, i: nat) {
    TasksRun(es, i) == 0 && OfConnection(es, i, []) == []
  }

  ghost predicate Courses(links: seq<Net>, es: seq<CastEvent>, log: seq<Entry>) {
    && |links| == |Challenges(es)|
    && (forall i :: 0 <= i < |links| ==> OwnCourse(links[i], es, i, Challenges(es)[i], To(log, i)))
    && (forall i :: i >= |links| ==> NoCourse(es, i))
  }

  /** The server is what the events call for. */
  ghost predicate Follows(s: Cast, es: seq<CastEvent>) {
    Entries(s.log) == Given(es) && Courses(s.links, es, s.log)
  }

  /** An event that does not concern connection `i`, and a log that may have grown. */
  lemma NotMine(n: Net, es: seq<CastEvent>, e: CastEvent, i: nat, challenge: nat, ms: seq<Message>, more: seq<Message>)
    requires OwnCourse(n, es, i, challenge, ms) && e != RunTask(i) && !(e.OnConnection? && e.i == i)
    ensures OwnCourse(n, es + [e], i, challenge, ms + more)
  {
    hide OwnRun, TasksRun, OfConnection;
    Next(es, e, i, ms + more);
    SameTasks(es, i, ms, more);
  }

  lemma NotThere(es: seq<CastEvent>, e: CastEvent, i: nat)
    requires NoCourse(es, i) && e != RunTask(i) && !(e.OnConnection? && e.i == i)
    ensures NoCourse(es + [e], i)
  {
    Next(es, e, i, []);
  }

  lemma NewCourse(es: seq<CastEvent>, e: CastEvent, i: nat)
    requires NoCourse(es, i) && e.Accept? && e.challenge < TWO64
    ensures OwnCourse(Initial(e.challenge), es + [e], i, e.challenge, [])
  {
    Next(es, e, i, []);
    StartsAlone(e.challenge);
    assert Initial(e.challenge).server.posted == [];
    hide OwnRun, TasksRun, OfConnection, Initial;
  }

  lemma TaskCourse(n: Net, es: seq<CastEvent>, i: nat, challenge: nat, ms: seq<Message>, m: Message)
    requires OwnCourse(n, es, i, challenge, ms) && NetEnabled(n, Task(m))
    requires n.server.posted + [m] <= ms
    ensures OwnCourse(NetStep(n, Task(m)), es + [RunTask(i)], i, challenge, ms)
  {
    hide OwnRun, TasksRun, OfConnection, NetStep, NetEnabled, Task;
    TaskRuns(n, m);
    Next(es, RunTask(i), i, ms);
    OwnStep(n, challenge, OfConnection(es, i, ms), Task(m));
    assert ms[|n.server.posted|] == (n.server.posted + [m])[|n.server.posted|];
  }

  lemma EventCourse(n: Net, es: seq<CastEvent>, i: nat, challenge: nat, ms: seq<Message>, ne: NetEvent)
    requires OwnCourse(n, es, i, challenge, ms) && NetEnabled(n, ne) && !IsTask(ne)
    ensures OwnCourse(NetStep(n, ne), es + [OnConnection(i, ne)], i, challenge, ms)
  {
    hide OwnRun, TasksRun, OfConnection, NetStep, NetEnabled, IsTask;
    OtherStep(n, ne);
    Next(es, OnConnection(i, ne), i, ms);
    OwnStep(n, challenge, OfConnection(es, i, ms), ne);
  }

  /** The connections an event does not concern. */
  lemma OthersCourses(links: seq<Net>, es: seq<CastEvent>, e: CastEvent, log: seq<Entry>, more: seq<Entry>, j: nat)
    requires Courses(links, es, log) && |more| <= 1 && e != RunTask(j) && !(e.OnConnection? && e.i == j)
    requires Challenges(es) <= Challenges(es + [e])
    ensures j < |links| ==> OwnCourse(links[j], es + [e], j, Challenges(es + [e])[j], To(log + more, j))
    ensures j >= |links| ==> NoCourse(es + [e], j)
  {
    hide OwnCourse, NoCourse, Challenges, To;
    if j < |links| {
      ToMore(log, more, j);
      NotMine(links[j], es, e, j, Challenges(es)[j], To(log, j), To(more, j));
    } else {
      NotThere(es, e, j);
    }
  }

  lemma ToMore(log: seq<Entry>, more: seq<Entry>, i: nat)
    requires |more| <= 1
    ensures To(log + more, i) == To(log, i) + To(more, i)
  {
    if more == [] {
      assert log + more == log;
    } else {
      assert more == [more[0]] && more[..0] == [];
      ToAppend(log, more[0], i);
    }
  }

  lemma SendCourses(links: seq<Net>, es: seq<CastEvent>, e: CastEvent, log: seq<Entry>, entry: Entry)
    requires Courses(links, es, log) && (e.ToAll? || e.ToOne? || e.Direct?)
    ensures Courses(links, es + [e], log + [entry])
  {
    Next(es, e, 0, []);
    hide OwnCourse, NoCourse, Challenges, To;
    forall j | 0 <= j < |links|
      ensures OwnCourse(links[j], es + [e], j, Challenges(es + [e])[j], To(log + [entry], j))
    {
      OthersCourses(links, es, e, log, [entry], j);
    }
    forall j | j >= |links|
      ensures NoCourse(es + [e], j)
    {
      OthersCourses(links, es, e, log, [entry], j);
    }
  }

  /** The same with nothing more in the log. */
  lemma StillCourse(links: seq<Net>, es: seq<CastEvent>, e: CastEvent, log: seq<Entry>, j: nat)
    requires Courses(links, es, log) && e != RunTask(j) && !(e.OnConnection? && e.i == j)
    requires Challenges(es) <= Challenges(es + [e])
    ensures j < |links| ==> OwnCourse(links[j], es + [e], j, Challenges(es + [e])[j], To(log, j))
    ensures j >= |links| ==> NoCourse(es + [e], j)
  {
    hide Courses, OwnCourse, NoCourse, Challenges, To;
    assert log + [] == log;
    OthersCourses(links, es, e, log, [], j);
  }

  lemma AcceptCourses(links: seq<Net>, es: seq<CastEvent>, e: CastEvent, log: seq<Entry>, n: Net)
    requires Courses(links, es, log) && e.Accept? && Challenges(es + [e]) == Challenges(es) + [e.challenge]
    requires OwnCourse(n, es + [e], |links|, e.challenge, To(log, |links|))
    ensures Courses(links + [n], es + [e], log)
  {
    hide OwnCourse, NoCourse, Challenges, To;
    forall j | 0 <= j < |links + [n]|
      ensures OwnCourse((links + [n])[j], es + [e], j, Challenges(es + [e])[j], To(log, j))
    {
      StillCourse(links, es, e, log, j);
    }
    forall j | j >= |links + [n]|
      ensures NoCourse(es + [e], j)
    {
      StillCourse(links, es, e, log, j);
    }
  }

  lemma LinkCourses(links: seq<Net>, es: seq<CastEvent>, e: CastEvent, log: seq<Entry>, i: nat, n: Net)
    requires Courses(links, es, log) && i < |links| && (e == RunTask(i) || (e.OnConnection? && e.i == i))
    requires OwnCourse(n, es + [e], i, Challenges(es)[i], To(log, i))
    ensures Courses(links[i := n], es + [e], log)
  {
    hide OwnCourse, NoCourse, Challenges, To;
    Next(es, e, 0, []);
    forall j | 0 <= j < |links|
      ensures OwnCourse(links[i := n][j], es + [e], j, Challenges(es + [e])[j], To(log, j))
    {
      if j != i {
        StillCourse(links, es, e, log, j);
      }
    }
    forall j | j >= |links|
      ensures NoCourse(es + [e], j)
    {
      StillCourse(links, es, e, log, j);
    }
  }

  lemma EntriesMore(log: seq<Entry>, entry: Entry)
    ensures Entries(log + [entry]) == Entries(log) + [entry.msg]
  {
  }

  lemma SendFollows(s: Cast, es: seq<CastEvent>, e: CastEvent, s': Cast, entry: Entry)
    requires Follows(s, es) && (e.ToAll? || e.ToOne? || e.Direct?)
    requires s'.links == s.links && s'.log == s.log + [entry] && entry.msg == e.m
    ensures Follows(s', es + [e])
  {
    hide Courses, Entries, Given;
    Next(es, e, 0, []);
    EntriesMore(s.log, entry);
    SendCourses(s.links, es, e, s.log, entry);
  }

  lemma NobodyYet(links: seq<Net>, es: seq<CastEvent>, log: seq<Entry>)
    requires Courses(links, es, log)
    ensures NoCourse(es, |links|)
  {
    hide OwnCourse, NoCourse, Challenges, To;
  }

  lemma AcceptFollows(s: Cast, es: seq<CastEvent>, e: CastEvent)
    requires InOrder(s.links, s.tasks, s.log) && Follows(s, es) && e.Accept? && e.challenge < TWO64
    ensures Follows(AcceptStep(s, e.challenge, e.allowed), es + [e])
  {
    hide Courses, Entries, Given, ServerTable.Step, Initial, To, OwnCourse, NoCourse, Challenges;
    MeantForNobody(s.log, |s.links|);
    Next(es, e, 0, []);
    NobodyYet(s.links, es, s.log);
    NewCourse(es, e, |s.links|);
    AcceptCourses(s.links, es, e, s.log, Initial(e.challenge));
  }

  lemma TaskIsNext(s: Cast, i: nat)
    requires InOrder(s.links, s.tasks, s.log) && i < |s.links| && s.tasks[i] != []
    ensures s.links[i].server.posted + [s.tasks[i][0]] <= To(s.log, i)
  {
    hide To;
    FirstRuns(s.links[i].server.posted, s.tasks[i]);
  }

  lemma RunTaskFollows(s: Cast, es: seq<CastEvent>, i: nat)
    requires InOrder(s.links, s.tasks, s.log) && Follows(s, es) && CastEnabled(s, RunTask(i))
    ensures Follows(RunTaskStep(s, i), es + [RunTask(i)])
  {
    hide Entries, Given, InOrder, NetStep, NetEnabled, Task, To, OwnCourse, NoCourse, Challenges;
    var m := s.tasks[i][0];
    Next(es, RunTask(i), i, []);
    TaskIsNext(s, i);
    TaskCourse(s.links[i], es, i, Challenges(es)[i], To(s.log, i), m);
    LinkCourses(s.links, es, RunTask(i), s.log, i, NetStep(s.links[i], Task(m)));
  }

  lemma OnConnectionFollows(s: Cast, es: seq<CastEvent>, i: nat, ne: NetEvent)
    requires Follows(s, es) && CastEnabled(s, OnConnection(i, ne))
    ensures Follows(OnConnectionStep(s, i, ne), es + [OnConnection(i, ne)])
  {
    hide Entries, Given, NetStep, NetEnabled, IsTask, To, OwnCourse, NoCourse, Challenges, ServerTable.Step;
    Next(es, OnConnection(i, ne), i, []);
    EventCourse(s.links[i], es, i, Challenges(es)[i], To(s.log, i), ne);
    LinkCourses(s.links, es, OnConnection(i, ne), s.log, i, NetStep(s.links[i], ne));
  }

  lemma FollowsNext(s: Cast, es: seq<CastEvent>, e: CastEvent)
    requires InOrder(s.links, s.tasks, s.log) && Follows(s, es) && CastEnabled(s, e)
    ensures Follows(CastStep(s, e), es + [e])
  {
    hide Follows, InOrder, AcceptStep, RunTaskStep, OnConnectionStep, Recipients, Posted, NewCalls, ServerTable.Step;
    match e
    case Accept(_, _) => AcceptFollows(s, es, e);
    case ToAll(ignore, m) => SendFollows(s, es, e, CastStep(s, e), Entry(m, Recipients(s.table, ignore)));
    case ToOne(client, m) =>
      var to := if ServerTable.Connected(client, s.table.open) then {client.value} else {};
      SendFollows(s, es, e, CastStep(s, e), Entry(m, to));
    case Direct(i, m) => SendFollows(s, es, e, CastStep(s, e), Entry(m, {i}));
    case RunTask(i) => RunTaskFollows(s, es, i);
    case OnConnection(i, ne) => OnConnectionFollows(s, es, i, ne);
  }

  lemma {:induction false} FollowsRun(s: Cast, earlier: seq<CastEvent>, es: seq<CastEvent>, g: set<nat>)
    requires CastInv(s, g) && Follows(s, earlier) && CanRunCast(s, es, g)
    ensures Follows(RunCast(s, es, g), earlier + es)
    decreases |es|
  {
    OneByOne(earlier, es);
    if es != [] {
      hide Follows, CastStep, CastEnabled, CastGated, LinksIn, TableFits, InOrder;
      CastInvStep(s, es[0], g);
      FollowsNext(s, earlier, es[0]);
      FollowsRun(CastStep(s, es[0]), earlier + [es[0]], es[1..], g);
    }
  }

  /**
   * The server does what the events call for, over every run: the log holds exactly the messages
   * given to it to send, in order, and every connection is exactly where its own events and the
   * tasks posted for it, in the order of the log, bring it from its own challenge.
   */
  lemma RunFollowsEvents(start: nat, es: seq<CastEvent>, g: set<nat>)
    requires CanRunCast(EmptyCast(start), es, g)
    ensures var s := RunCast(EmptyCast(start), es, g);
            && Entries(s.log) == Given(es) && |s.links| == |Challenges(es)|
            && forall i :: 0 <= i < |s.links| ==> OwnCourse(s.links[i], es, i, Challenges(es)[i], To(s.log, i))
  {
    hide RunCast, CanRunCast, CastInv, Follows, Given, Challenges, OwnCourse, To, EmptyCast;
    EmptyFollows(start, g);
    NothingFirst(es);
    FollowsRun(EmptyCast(start), [], es, g);
    FollowsNow(RunCast(EmptyCast(start), es, g), es);
  }

  lemma EmptyFollows(start: nat, g: set<nat>)
    ensures CastInv(EmptyCast(start), g) && Follows(EmptyCast(start), [])
  {
    EmptyCastInv(start, g);
    hide CastInv;
  }

  lemma FollowsNow(s: Cast, es: seq<CastEvent>)
    requires Follows(s, es)
    ensures Entries(s.log) == Given(es) && |s.links| == |Challenges(es)|
    ensures forall i :: 0 <= i < |s.links| ==> OwnCourse(s.links[i], es, i, Challenges(es)[i], To(s.log, i))
  {
    hide Given, Challenges, OwnCourse, NoCourse, To, Entries;
  }

  // ---------------------------------------------------------------- who is meant

  /** The connections a send is meant for: open, and, for a broadcast, in the table and not ignored. */
  ghost predicate MeantFor(s: Cast, e: CastEvent, p: nat) {
    match e
    case ToAll(ignore, _) => p < |s.links| && s.links[p].server.open && Some(p) in s.table.conns && Some(p) != ignore
    case ToOne(client, _) => p < |s.links| && s.links[p].server.open && client == Some(p)
    case Direct(i, _) => p == i
    case _ => false
  }

  lemma MeantNow(s: Cast, e: CastEvent, g: set<nat>, p: nat)
    requires CastInv(s, g) && CastEnabled(s, e) && (e.ToAll? || e.ToOne? || e.Direct?)
    ensures var s' := CastStep(s, e);
            |s'.log| == |s.log| + 1 && s.log <= s'.log && s'.log[|s.log|].msg == e.m
            && (p in s'.log[|s.log|].to <==> MeantFor(s, e, p))
  {
    hide LinksIn, InOrder, Posted, NewCalls, ServerTable.Step, ServerTable.Shape;
  }

  lemma {:induction false} LogOnlyGrows(s: Cast, es: seq<CastEvent>, g: set<nat>)
    requires CanRunCast(s, es, g)
    ensures s.log <= RunCast(s, es, g).log
    decreases |es|
  {
    if es != [] {
      LogStep(s, es[0]);
      hide CastStep, CastEnabled, CastGated;
      LogOnlyGrows(CastStep(s, es[0]), es[1..], g);
    }
  }

  lemma LogStep(s: Cast, e: CastEvent)
    requires CastEnabled(s, e)
    ensures s.log <= CastStep(s, e).log
  {
    hide Posted, NewCalls, Recipients, NetStep, NetEnabled, ServerTable.Step, Initial;
  }

  lemma {:induction false} RunSplit(s: Cast, es: seq<CastEvent>, fs: seq<CastEvent>, g: set<nat>)
    requires CanRunCast(s, es + fs, g)
    ensures CanRunCast(s, es, g) && CanRunCast(RunCast(s, es, g), fs, g)
    ensures RunCast(s, es + fs, g) == RunCast(RunCast(s, es, g), fs, g)
    decreases |es|
  {
    hide CastStep, CastEnabled, CastGated;
    if es == [] {
      assert es + fs == fs;
    } else {
      assert (es + fs)[0] == es[0] && (es + fs)[1..] == es[1..] + fs;
      RunSplit(CastStep(s, es[0]), es[1..], fs, g);
    }
  }

  lemma RunFirst(s: Cast, e: CastEvent, es: seq<CastEvent>, g: set<nat>)
    requires CanRunCast(s, [e] + es, g)
    ensures CastEnabled(s, e) && CanRunCast(CastStep(s, e), es, g)
    ensures RunCast(s, [e] + es, g) == RunCast(CastStep(s, e), es, g)
  {
    hide CastStep, CastEnabled, CastGated;
    assert ([e] + es)[0] == e && ([e] + es)[1..] == es;
  }

  /**
   * Who gets what, exactly, over every run: the entry of the log for a send that came after the
   * events `earlier` holds its message and is meant for exactly the connections that were open then
   * and, for a broadcast, in the table and not ignored.
   */
  lemma EntryExact(start: nat, earlier: seq<CastEvent>, e: CastEvent, later: seq<CastEvent>, g: set<nat>, p: nat)
    requires CanRunCast(EmptyCast(start), earlier + ([e] + later), g) && (e.ToAll? || e.ToOne? || e.Direct?)
    ensures CanRunCast(EmptyCast(start), earlier, g)
    ensures var s0, s := RunCast(EmptyCast(start), earlier, g), RunCast(EmptyCast(start), earlier + ([e] + later), g);
            var k := |Given(earlier)|;
            k < |s.log| && s.log[k].msg == e.m && (p in s.log[k].to <==> MeantFor(s0, e, p))
  {
    EmptyCastInv(start, g);
    hide CanRunCast, RunCast, CastStep, CastEnabled, CastGated, CastInv, MeantFor, Given, OwnCourse, EmptyCast;
    RunSplit(EmptyCast(start), earlier, [e] + later, g);
    var s0 := RunCast(EmptyCast(start), earlier, g);
    RunFirst(s0, e, later, g);
    RunFollowsEvents(start, earlier, g);
    CastInvRun(EmptyCast(start), earlier, g);
    MeantNow(s0, e, g, p);
    LogOnlyGrows(CastStep(s0, e), later, g);
  }

  /** What a run does to the table of connections. */
  function TableEvents(s: Cast, es: seq<CastEvent>, g: set<nat>): seq<ServerTable.Event<nat, Message>>
    requires CanRunCast(s, es, g)
    decreases |es|
  {
    if es == [] then [] else TableEvent(s, es[0]) + TableEvents(CastStep(s, es[0]), es[1..], g)
  }

  function TableEvent(s: Cast, e: CastEvent): seq<ServerTable.Event<nat, Message>>
    requires CastEnabled(s, e)
  {
    match e
    case Accept(_, allowed) => [ServerTable.Event.Accept(|s.links|, true, allowed)]
    case ToAll(ignore, m) => [ServerTable.SendToAll(ignore, m)]
    case ToOne(client, m) => [ServerTable.SendTo(client, m)]
    case OnConnection(i, ne) => if NetStep(s.links[i], ne).server.open then [] else [ServerTable.SocketClosed(i)]
    case _ => []
  }

  lemma TableStep(s: Cast, e: CastEvent, g: set<nat>)
    requires CastEnabled(s, e) && CastInv(s, g)
    ensures ServerTable.CanRun(s.table, TableEvent(s, e))
    ensures CastStep(s, e).table == ServerTable.Run(s.table, TableEvent(s, e))
  {
    hide LinksIn, InOrder, NetStep, NetEnabled, Posted, NewCalls, Recipients, ServerTable.Step, ServerTable.Shape, Initial;
    var tes := TableEvent(s, e);
    if tes != [] {
      ServerTable.RunFirst(s.table, tes[0], []);
      assert [tes[0]] + [] == tes;
    }
  }

  /** The table of the composed server is a table of `ServerTable`, so all that holds over its runs holds here. */
  lemma {:induction false} TableOfRun(s: Cast, es: seq<CastEvent>, g: set<nat>)
    requires CastInv(s, g) && CanRunCast(s, es, g)
    ensures ServerTable.CanRun(s.table, TableEvents(s, es, g))
    ensures RunCast(s, es, g).table == ServerTable.Run(s.table, TableEvents(s, es, g))
    decreases |es|
  {
    if es != [] {
      hide CastInv, CastStep, CastEnabled, CastGated, TableEvent, ServerTable.CanRun, ServerTable.Run;
      TableStep(s, es[0], g);
      CastInvStep(s, es[0], g);
      var s1 := CastStep(s, es[0]);
      TableOfRun(s1, es[1..], g);
      ServerTable.RunTogether(s.table, TableEvent(s, es[0]), TableEvents(s1, es[1..], g));
    }
  }

  // ---------------------------------------------------------------- everything can arrive

  /** Some continuation under the premise leads from `s` to `s'`. */
  ghost predicate CastContinues(s: Cast, s': Cast, g: set<nat>) {
    exists es :: CanRunCast(s, es, g) && RunCast(s, es, g) == s'
  }

  lemma FirstThenOthers(s: Cast, e: CastEvent, s': Cast, g: set<nat>)
    requires CastEnabled(s, e) && CastGated(s, e, g) && CastContinues(CastStep(s, e), s', g)
    ensures CastContinues(s, s', g)
  {
    var es :| CanRunCast(CastStep(s, e), es, g) && RunCast(CastStep(s, e), es, g) == s';
    hide CastEnabled, CastGated, CastStep;
    assert ([e] + es)[1..] == es;
    assert CanRunCast(s, [e] + es, g) && RunCast(s, [e] + es, g) == s';
  }

  /** What was posted is never taken back. */
  lemma {:induction false} PostedGrows(n: Net, es: seq<NetEvent>)
    requires CanRunNet(n, es)
    ensures n.server.posted <= RunNet(n, es).server.posted
    decreases |es|
  {
    if es != [] {
      PostedStep(n, es[0]);
      hide NetStep, NetEnabled;
      PostedGrows(NetStep(n, es[0]), es[1..]);
    }
  }

  lemma PostedStep(n: Net, ne: NetEvent)
    requires NetEnabled(n, ne)
    ensures n.server.posted <= NetStep(n, ne).server.posted
    ensures IsTask(ne) ==> |n.server.posted| < |NetStep(n, ne).server.posted|
  {
    hide Step, Enabled, Typed;
    StepHistory(n.End(ne.owner), ne.e);
  }

  /** Only connection `i` is another. */
  predicate OnlyLink(s: Cast, s': Cast, i: nat, n: Net)
    requires i < |s.links|
  {
    s'.links == s.links[i := n] && s'.tasks == s.tasks && s'.log == s.log
  }

  /** What can happen on a connection by itself can happen in the server. */
  lemma {:induction false} LiftRun(s: Cast, i: nat, es: seq<NetEvent>, g: set<nat>) returns (s': Cast)
    requires i < |s.links| && CanRunNet(s.links[i], es) && GatedRun(s.links[i], es)
    requires RunNet(s.links[i], es).server.posted == s.links[i].server.posted
    ensures CastContinues(s, s', g) && OnlyLink(s, s', i, RunNet(s.links[i], es))
    decreases |es|
  {
    if es == [] {
      s' := s;
      assert CanRunCast(s, [], g) && RunCast(s, [], g) == s;
    } else {
      var n := NetStep(s.links[i], es[0]);
      PostedStep(s.links[i], es[0]);
      PostedGrows(n, es[1..]);
      RunNetUnfold(s.links[i], es);
      hide NetStep, NetEnabled, Gated, IsTask, CanRunNet, RunNet, GatedRun, CastContinues, ServerTable.Step;
      var s1 := OnConnectionStep(s, i, es[0]);
      assert OnlyLink(s, s1, i, n);
      s' := LiftRun(s1, i, es[1..], g);
      FirstThenOthers(s, OnConnection(i, es[0]), s', g);
    }
  }

  /** A task can run, and does not disturb a connection whose handshake is over. */
  lemma TaskCanRun(n: Net, m: Message)
    requires LinkInv(n, true) && WellFormed(m) && HandshakeOver(n)
    ensures NetEnabled(n, Task(m)) && Gated(n, Task(m)) && HandshakeOver(NetStep(n, Task(m)))
  {
    hide SentInv, Step;
    PostEffect(n.server, m);
    hide Inv;
  }

  lemma LinkOf(s: Cast, i: nat)
    requires CastInv(s, {i}) && i < |s.links|
    ensures LinkInv(s.links[i], true)
  {
    hide LinkInv, TableFits, InOrder;
    assert i in {i};
  }

  lemma NothingToPost(s: Cast, i: nat)
    requires CastInv(s, {i}) && i < |s.links| && i < |s.tasks| && s.tasks[i] == []
    ensures s.links[i].server.posted == To(s.log, i)
  {
    hide LinksIn, TableFits, To;
    assert s.links[i].server.posted + [] == s.links[i].server.posted;
  }

  lemma {:induction false} Settle(s: Cast, i: nat) returns (s': Cast)
    requires CastInv(s, {i}) && i < |s.links| && i < |s.tasks|
    requires HandshakeOver(s.links[i]) && AllWellFormed(s.tasks[i])
    ensures CastContinues(s, s', {i}) && s'.log == s.log && |s'.links| == |s.links|
    ensures Views(s'.links[i].client.reader.out) == Views(To(s.log, i))
    decreases |s.tasks[i]|
  {
    hide CastInv, CastContinues, LinkInv, HandshakeOver, WellFormed, Views, To;
    LinkOf(s, i);
    if s.tasks[i] == [] {
      NothingToPost(s, i);
      s' := LastMile(s, i);
    } else {
      var s1 := TaskTaken(s, i);
      s' := Settle(s1, i);
      hide CastEnabled, CastGated, CastStep;
      FirstThenOthers(s, RunTask(i), s', {i});
    }
  }

  lemma TaskTaken(s: Cast, i: nat) returns (s1: Cast)
    requires CastInv(s, {i}) && i < |s.links| && i < |s.tasks| && s.tasks[i] != []
    requires HandshakeOver(s.links[i]) && AllWellFormed(s.tasks[i])
    ensures CastEnabled(s, RunTask(i)) && CastGated(s, RunTask(i), {i}) && s1 == CastStep(s, RunTask(i))
    ensures CastInv(s1, {i}) && |s1.links| == |s.links| && |s1.tasks| == |s.tasks| && s1.log == s.log
    ensures HandshakeOver(s1.links[i]) && s1.tasks[i] == s.tasks[i][1..]
  {
    hide CastInv, LinkInv, NetStep, NetEnabled, Gated, Task, HandshakeOver, WellFormed;
    LinkOf(s, i);
    TaskCanRun(s.links[i], s.tasks[i][0]);
    s1 := RunTaskStep(s, i);
    RunTaskKeeps(s, i, {i});
  }

  lemma LastMile(s: Cast, i: nat) returns (s': Cast)
    requires i < |s.links| && LinkInv(s.links[i], true) && HandshakeOver(s.links[i])
    ensures CastContinues(s, s', {i}) && s'.log == s.log && |s'.links| == |s.links|
    ensures Views(s'.links[i].client.reader.out) == Views(s.links[i].server.posted)
  {
    hide Views, CastContinues, LinkInv, HandshakeOver, CanRunNet, RunNet, GatedRun;
    var es, n' := DrainLink(s.links[i]);
    s' := LiftRun(s, i, es, {i});
  }

  lemma DrainLink(n: Net) returns (es: seq<NetEvent>, n': Net)
    requires LinkInv(n, true) && HandshakeOver(n)
    ensures CanRunNet(n, es) && GatedRun(n, es) && RunNet(n, es) == n'
    ensures n'.server.posted == n.server.posted && Views(n'.client.reader.out) == Views(n.server.posted)
  {
    hide Inv, SentInv, HandshakeOver, Views, CanRunNet, RunNet, GatedRun;
    n' := DrainBoth(n, n.server.handshakeOut);
    es :| CanRunNet(n, es) && RunNet(n, es) == n' && GatedRun(n, es);
  }

  /**
   * Nothing is out of reach: in every reachable state of such a server, if connection `i` is open
   * at both ends with its handshake over, some continuation in which nothing new is sent brings
   * client `i` every message that was ever meant for it.
   */
  lemma EverythingCanArrive(start: nat, es: seq<CastEvent>, i: nat)
    requires CanRunCast(EmptyCast(start), es, {i}) && i < |RunCast(EmptyCast(start), es, {i}).links|
    requires var s := RunCast(EmptyCast(start), es, {i});
             HandshakeOver(s.links[i]) && (i < |s.tasks| ==> AllWellFormed(s.tasks[i]))
    ensures var s := RunCast(EmptyCast(start), es, {i});
            exists s' :: CastContinues(s, s', {i}) && s'.log == s.log && |s'.links| == |s.links|
                         && Views(s'.links[i].client.reader.out) == Views(To(s.log, i))
  {
    EmptyCastInv(start, {i});
    CastInvRun(EmptyCast(start), es, {i});
    var s := RunCast(EmptyCast(start), es, {i});
    hide RunCast, CanRunCast, LinksIn, TableFits, To, HandshakeOver, WellFormed, CastContinues, Views;
    assert |s.tasks| == |s.links|;
    hide CastInv;
    var s' := Settle(s, i);
  }
}

/** The server's table of connections: accepting, sending to one, sending to all. */
module ServerTable {
  import opened Arith
  import opened Wrappers

  /** What the server calls on its connections and on the application. */
  datatype Call<T, M> = SendData(to: T, msg: M) | OnClientDisconnect(who: Option<T>)

  // ---------------------------------------------------------------- one broadcast

  /** A pointer that is set and whose socket is open. */
  predicate Connected<T(==)>(entry: Option<T>, open: set<T>) {
    entry.Some? && entry.value in open
  }

  /** The calls a broadcast makes for one entry. */
  function CallsFor<T(==), M>(entry: Option<T>, open: set<T>, ignore: Option<T>, m: M): seq<Call<T, M>> {
    if Connected(entry, open) then
      if entry != ignore then [SendData(entry.value, m)] else []
    else [OnClientDisconnect(entry)]
  }

  function Calls<T(==), M>(conns: seq<Option<T>>, open: set<T>, ignore: Option<T>, m: M): seq<Call<T, M>> {
    if conns == [] then []
    else
      var last := |conns| - 1;
      Calls(conns[..last], open, ignore, m) + CallsFor(conns[last], open, ignore, m)
  }

  /** The connected entries in their original order. */
  function Live<T(==)>(conns: seq<Option<T>>, open: set<T>): seq<Option<T>> {
    if conns == [] then []
    else
      var last := |conns| - 1;
      Live(conns[..last], open) + if Connected(conns[last], open) then [conns[last]] else []
  }

  /** The entries with the unconnected ones reset to null. */
  function Reset<T(==)>(conns: seq<Option<T>>, open: set<T>): (r: seq<Option<T>>)
    ensures |r| == |conns|
  {
    seq(|conns|, i requires 0 <= i < |conns| => if Connected(conns[i], open) then conns[i] else None)
  }

  /** The erase-remove of nulls. */
  function WithoutNulls<T>(conns: seq<Option<T>>): seq<Option<T>> {
    if conns == [] then []
    else
      var last := |conns| - 1;
      WithoutNulls(conns[..last]) + if conns[last].Some? then [conns[last]] else []
  }

  predicate NoNulls<T(==)>(conns: seq<Option<T>>) {
    forall i :: 0 <= i < |conns| ==> conns[i] != None
  }

  ghost predicate Distinct<T>(conns: seq<Option<T>>) {
    forall i, j :: 0 <= i < j < |conns| ==> conns[i] != conns[j]
  }

  /** Resetting the unconnected entries and erasing nulls leaves exactly the connected ones. */
  lemma {:induction false} ResetAndErase<T>(conns: seq<Option<T>>, open: set<T>)
    ensures WithoutNulls(Reset(conns, open)) == Live(conns, open)
  {
    if conns != [] {
      var last := |conns| - 1;
      ResetAndErase(conns[..last], open);
      assert Reset(conns, open)[..last] == Reset(conns[..last], open);
    }
  }

  lemma {:induction false} NothingToErase<T>(conns: seq<Option<T>>)
    requires NoNulls(conns)
    ensures WithoutNulls(conns) == conns
  {
    if conns != [] {
      var last := |conns| - 1;
      NothingToErase(conns[..last]);
      assert conns == conns[..last] + [conns[last]];
    }
  }

  /** Every connected entry is kept as often as it was there, every other one is gone. */
  lemma {:induction false} LiveCounts<T>(conns: seq<Option<T>>, open: set<T>, entry: Option<T>)
    ensures multiset(Live(conns, open))[entry] == if Connected(entry, open) then multiset(conns)[entry] else 0
    ensures NoNulls(Live(conns, open))
  {
    if conns != [] {
      var last := |conns| - 1;
      LiveCounts(conns[..last], open, entry);
      assert conns == conns[..last] + [conns[last]];
    }
  }

  /** One entry of the result lies where it lay before, among those kept. */
  lemma {:induction false} LiveKeepsOrder<T>(conns: seq<Option<T>>, more: seq<Option<T>>, open: set<T>)
    ensures Live(conns + more, open) == Live(conns, open) + Live(more, open)
  {
    if more == [] {
      assert conns + more == conns;
    } else {
      var last := |more| - 1;
      assert (conns + more)[..|conns + more| - 1] == conns + more[..last];
      LiveKeepsOrder(conns, more[..last], open);
    }
  }

  /** What the calls for one entry add to the counts of another. */
  lemma CallsForCounts<T, M>(e: Option<T>, open: set<T>, ignore: Option<T>, m: M, entry: Option<T>)
    ensures entry.Some? ==>
              multiset(CallsFor(e, open, ignore, m))[SendData(entry.value, m)] ==
              if Connected(entry, open) && entry != ignore && e == entry then 1 else 0
    ensures multiset(CallsFor(e, open, ignore, m))[OnClientDisconnect(entry)] ==
            if !Connected(entry, open) && e == entry then 1 else 0
  {
  }

  lemma CountOfConcat<X>(a: seq<X>, b: seq<X>, x: X)
    ensures multiset(a + b)[x] == multiset(a)[x] + multiset(b)[x]
  {
  }

  /** How often each connection is sent the message, and reported as disconnected. */
  lemma {:induction false} CallCounts<T, M>(conns: seq<Option<T>>, open: set<T>, ignore: Option<T>, m: M, entry: Option<T>)
    ensures entry.Some? ==>
              multiset(Calls(conns, open, ignore, m))[SendData(entry.value, m)] ==
              if Connected(entry, open) && entry != ignore then multiset(conns)[entry] else 0
    ensures multiset(Calls(conns, open, ignore, m))[OnClientDisconnect(entry)] ==
            if Connected(entry, open) then 0 else multiset(conns)[entry]
  {
    if conns != [] {
      var last := |conns| - 1;
      var before, now := Calls(conns[..last], open, ignore, m), CallsFor(conns[last], open, ignore, m);
      CallCounts(conns[..last], open, ignore, m, entry);
      CallsForCounts(conns[last], open, ignore, m, entry);
      assert Calls(conns, open, ignore, m) == before + now;
      hide Calls, CallsFor, Connected;
      CountOfLast(conns, entry);
      CountOfConcat(before, now, OnClientDisconnect(entry));
      if entry.Some? {
        CountOfConcat(before, now, SendData(entry.value, m));
      }
    }
  }

  lemma CountOfLast<X>(a: seq<X>, x: X)
    requires a != []
    ensures multiset(a)[x] == multiset(a[..|a| - 1])[x] + if a[|a| - 1] == x then 1 else 0
  {
    assert a == a[..|a| - 1] + [a[|a| - 1]];
  }

  lemma {:induction false} DistinctCount<T>(conns: seq<Option<T>>, entry: Option<T>)
    requires Distinct(conns)
    ensures multiset(conns)[entry] == if entry in conns then 1 else 0
  {
    if conns != [] {
      var last := |conns| - 1;
      DistinctCount(conns[..last], entry);
      assert conns == conns[..last] + [conns[last]];
    }
  }

  lemma {:induction false} LiveDistinct<T>(conns: seq<Option<T>>, open: set<T>)
    requires Distinct(conns)
    ensures Distinct(Live(conns, open))
    ensures forall e :: e in Live(conns, open) <==> e in conns && Connected(e, open)
  {
    if conns != [] {
      var last := |conns| - 1;
      LiveDistinct(conns[..last], open);
      assert conns == conns[..last] + [conns[last]];
    }
  }

  lemma {:induction false} LiveEntry<T>(conns: seq<Option<T>>, open: set<T>, i: nat)
    requires i < |Live(conns, open)|
    ensures Live(conns, open)[i] in conns && Connected(Live(conns, open)[i], open)
  {
    var last := |conns| - 1;
    if i < |Live(conns[..last], open)| {
      LiveEntry(conns[..last], open, i);
    }
  }

  /**
   * A broadcast over a table without nulls or repetitions: every connected entry but the ignored
   * one gets the message exactly once, every unconnected one is reported exactly once and is
   * gone, and the connected ones remain, without nulls or repetitions.
   */
  lemma BroadcastExact<T, M>(conns: seq<Option<T>>, open: set<T>, ignore: Option<T>, m: M, p: T)
    requires NoNulls(conns) && Distinct(conns)
    ensures var calls, kept := Calls(conns, open, ignore, m), Live(conns, open);
            && multiset(calls)[SendData(p, m)] == (if Some(p) in conns && p in open && ignore != Some(p) then 1 else 0)
            && multiset(calls)[OnClientDisconnect(Some(p))] == (if Some(p) in conns && p !in open then 1 else 0)
            && multiset(calls)[OnClientDisconnect(None)] == 0
            && (Some(p) in kept <==> Some(p) in conns && p in open)
            && NoNulls(kept) && Distinct(kept)
  {
    CallCounts(conns, open, ignore, m, Some(p));
    CallCounts(conns, open, ignore, m, None);
    DistinctCount(conns, Some(p));
    DistinctCount(conns, None);
    LiveDistinct(conns, open);
    LiveCounts(conns, open, Some(p));
  }

  // ---------------------------------------------------------------- what is sent to one connection

  /** The messages `SendData` was called with for connection `p`. */
  function SentTo<T(==), M>(calls: seq<Call<T, M>>, p: T): seq<M> {
    if calls == [] then []
    else
      var last := calls[|calls| - 1];
      SentTo(calls[..|calls| - 1], p) + if last.SendData? && last.to == p then [last.msg] else []
  }

  lemma {:induction false} SentToAppend<T, M>(a: seq<Call<T, M>>, b: seq<Call<T, M>>, p: T)
    ensures SentTo(a + b, p) == SentTo(a, p) + SentTo(b, p)
  {
    if b == [] {
      assert a + b == a;
    } else {
      var last := |b| - 1;
      SentToAppend(a, b[..last], p);
      assert (a + b)[..|a + b| - 1] == a + b[..last];
    }
  }

  lemma SentByOne<T, M>(call: Call<T, M>, p: T)
    ensures SentTo([call], p) == if call.SendData? && call.to == p then [call.msg] else []
  {
    assert SentTo([call][..0], p) == [];
  }

  lemma SentToEntry<T, M>(entry: Option<T>, open: set<T>, ignore: Option<T>, m: M, p: T)
    ensures SentTo(CallsFor(entry, open, ignore, m), p) ==
            if entry == Some(p) && p in open && ignore != entry then [m] else []
  {
    var calls := CallsFor(entry, open, ignore, m);
    if calls != [] {
      SentByOne(calls[0], p);
      assert calls == [calls[0]];
    }
  }

  /** A broadcast calls `SendData` exactly once for every connected entry but the ignored one. */
  lemma {:induction false} OneCallEach<T, M>(conns: seq<Option<T>>, open: set<T>, ignore: Option<T>, m: M, p: T)
    requires Distinct(conns)
    ensures SentTo(Calls(conns, open, ignore, m), p) ==
            if Some(p) in conns && p in open && ignore != Some(p) then [m] else []
  {
    if conns != [] {
      var init, last := conns[..|conns| - 1], conns[|conns| - 1];
      LastIsNew(conns);
      hide SentTo, CallsFor, Distinct;
      OneCallEach(init, open, ignore, m, p);
      SentToEntry(last, open, ignore, m, p);
      SentToAppend(Calls(init, open, ignore, m), CallsFor(last, open, ignore, m), p);
    }
  }

  lemma LastIsNew<T>(conns: seq<Option<T>>)
    requires conns != [] && Distinct(conns)
    ensures var init, last := conns[..|conns| - 1], conns[|conns| - 1];
            Distinct(init) && last !in init && forall e :: e in conns <==> e in init || e == last
  {
    assert conns == conns[..|conns| - 1] + [conns[|conns| - 1]];
  }

  // ---------------------------------------------------------------- whole runs of the table

  /**
   * The table over time. `made` is every connection the accept handler ever made, `deadSends` how
   * often `sendMessageToClient` was called for each pointer that was null or not connected.
   */
  datatype Table<!T, M> = Table(conns: seq<Option<T>>, open: set<T>, calls: seq<Call<T, M>>,
                                made: set<T>, deadSends: multiset<Option<T>>, ids: Numbering<T>)

  /**
   * The counter, the identifier of every connection made (0 until one is assigned), the connections
   * ever put into the table, in order, and those of them that were open when that happened.
   */
  datatype Numbering<!T> = Numbering(counter: nat, id: map<T, nat>, accepted: seq<T>, numbered: set<T>)

  datatype Event<T, M> =
    | Accept(p: T, live: bool, allowed: bool) // a new connection; the application allows or denies it
    | SendTo(client: Option<T>, m: M)         // sendMessageToClient
    | SendToAll(ignore: Option<T>, m: M)      // sendMessageToAllClients
    | SocketClosed(p: T)                      // a read or write handler closed the socket

  /** A new server, its counter at `start`. */
  function EmptyTable<T, M>(start: nat): Table<T, M> {
    Table([], {}, [], {}, multiset{}, Numbering(start, map[], [], {}))
  }

  predicate Enabled<T(==), M>(t: Table<T, M>, e: Event<T, M>) {
    e.Accept? ==> e.p !in t.made
  }

  /** The counter moves on for every allowed connection; `ConnectToClient` takes its value only if it is open. */
  function Number<T(==)>(n: Numbering<T>, p: T, live: bool, allowed: bool): Numbering<T> {
    if !allowed then n.(id := n.id[p := 0])
    else Numbering(Wrap32(n.counter + 1), n.id[p := if live then n.counter else 0],
                   n.accepted + [p], if live then n.numbered + {p} else n.numbered)
  }

  function AcceptStep<T(==), M>(t: Table<T, M>, p: T, live: bool, allowed: bool): Table<T, M> {
    t.(made := t.made + {p},
       open := if live then t.open + {p} else t.open,
       ids := Number(t.ids, p, live, allowed),
       conns := if allowed then t.conns + [Some(p)] else t.conns)
  }

  /** `sendMessageToClient`: it resets its own copy of the pointer, so the erase removes nulls only. */
  function SendToStep<T(==), M>(t: Table<T, M>, client: Option<T>, m: M): Table<T, M> {
    if Connected(client, t.open) then t.(calls := t.calls + [SendData(client.value, m)])
    else t.(calls := t.calls + [OnClientDisconnect(client)],
            conns := WithoutNulls(t.conns),
            deadSends := t.deadSends + multiset{client})
  }

  function Step<T(==), M>(t: Table<T, M>, e: Event<T, M>): Table<T, M> {
    match e
    case Accept(p, live, allowed) => AcceptStep(t, p, live, allowed)
    case SendTo(client, m) => SendToStep(t, client, m)
    case SendToAll(ignore, m) =>
      t.(calls := t.calls + Calls(t.conns, t.open, ignore, m), conns := Live(t.conns, t.open))
    case SocketClosed(p) => t.(open := t.open - {p})
  }

  predicate CanRun<T(==), M>(t: Table<T, M>, es: seq<Event<T, M>>)
    decreases |es|
  {
    es != [] ==> Enabled(t, es[0]) && CanRun(Step(t, es[0]), es[1..])
  }

  function Run<T(==), M>(t: Table<T, M>, es: seq<Event<T, M>>): Table<T, M>
    decreases |es|
  {
    if es == [] then t else Run(Step(t, es[0]), es[1..])
  }

  /** What is in the table was accepted, once, and is no null. */
  ghost predicate Shape<T, M>(t: Table<T, M>) {
    && NoNulls(t.conns) && Distinct(t.conns)
    && (forall i :: 0 <= i < |t.conns| ==> t.conns[i].Some? && t.conns[i].value in t.ids.accepted)
    && (forall k :: 0 <= k < |t.ids.accepted| ==> t.ids.accepted[k] in t.made)
  }

  /** How often `entry` was reported: once per send to it while dead, and once when a broadcast dropped it. */
  ghost predicate Reported<T, M>(t: Table<T, M>, entry: Option<T>) {
    multiset(t.calls)[OnClientDisconnect(entry)] ==
    t.deadSends[entry] + if entry.Some? && entry.value in t.ids.accepted && entry !in t.conns then 1 else 0
  }

  ghost predicate Inv<T, M>(t: Table<T, M>, entry: Option<T>) {
    Shape(t) && Reported(t, entry)
  }

  /** A broadcast keeps the shape of the table. */
  lemma BroadcastShape<T, M>(t: Table<T, M>, ignore: Option<T>, m: M)
    requires Shape(t)
    ensures Shape(Step(t, SendToAll(ignore, m)))
    ensures Step(t, SendToAll(ignore, m)) ==
            t.(calls := t.calls + Calls(t.conns, t.open, ignore, m), conns := Live(t.conns, t.open))
  {
    LiveDistinct(t.conns, t.open);
    LiveCounts(t.conns, t.open, None);
    var kept := Live(t.conns, t.open);
    forall i | 0 <= i < |kept|
      ensures kept[i].Some? && kept[i].value in t.ids.accepted
    {
      LiveEntry(t.conns, t.open, i);
      var j :| 0 <= j < |t.conns| && t.conns[j] == kept[i];
    }
  }

  /** A send to one client leaves the table as it is. */
  lemma SendToShape<T, M>(t: Table<T, M>, client: Option<T>, m: M)
    requires Shape(t)
    ensures Shape(Step(t, SendTo(client, m))) && t.conns == WithoutNulls(t.conns)
    ensures Step(t, SendTo(client, m)) ==
            if Connected(client, t.open) then t.(calls := t.calls + [SendData(client.value, m)])
            else t.(calls := t.calls + [OnClientDisconnect(client)], deadSends := t.deadSends + multiset{client})
  {
    NothingToErase(t.conns);
  }

  lemma BroadcastKeeps<T, M>(t: Table<T, M>, ignore: Option<T>, m: M, entry: Option<T>)
    requires Inv(t, entry)
    ensures Inv(Step(t, SendToAll(ignore, m)), entry)
  {
    var t' := Step(t, SendToAll(ignore, m));
    var calls := Calls(t.conns, t.open, ignore, m);
    BroadcastShape(t, ignore, m);
    LiveDistinct(t.conns, t.open);
    CallCounts(t.conns, t.open, ignore, m, entry);
    DistinctCount(t.conns, entry);
    CountOfConcat(t.calls, calls, OnClientDisconnect(entry));
  }

  /** An accept appends a new entry or none. */
  lemma AcceptShape<T, M>(t: Table<T, M>, p: T, live: bool, allowed: bool)
    requires Shape(t) && p !in t.made
    ensures Shape(AcceptStep(t, p, live, allowed)) && Some(p) !in t.conns
  {
  }

  lemma AcceptKeeps<T, M>(t: Table<T, M>, p: T, live: bool, allowed: bool, entry: Option<T>)
    requires Inv(t, entry) && p !in t.made
    ensures Inv(Step(t, Accept(p, live, allowed)), entry)
  {
    AcceptShape(t, p, live, allowed);
    var t' := Step(t, Accept(p, live, allowed));
    assert entry in t'.conns <==> entry in t.conns || (allowed && entry == Some(p));
  }

  lemma SendToKeeps<T, M>(t: Table<T, M>, client: Option<T>, m: M, entry: Option<T>)
    requires Inv(t, entry)
    ensures Inv(Step(t, SendTo(client, m)), entry)
  {
    SendToShape(t, client, m);
  }

  lemma StepKeeps<T, M>(t: Table<T, M>, e: Event<T, M>, entry: Option<T>)
    requires Inv(t, entry) && Enabled(t, e)
    ensures Inv(Step(t, e), entry)
  {
    match e
    case Accept(p, live, allowed) => AcceptKeeps(t, p, live, allowed, entry);
    case SendTo(client, m) => SendToKeeps(t, client, m, entry);
    case SendToAll(ignore, m) => BroadcastKeeps(t, ignore, m, entry);
    case SocketClosed(p) =>
  }

  lemma {:induction false} RunKeeps<T, M>(t: Table<T, M>, es: seq<Event<T, M>>, entry: Option<T>)
    requires Inv(t, entry) && CanRun(t, es)
    ensures Inv(Run(t, es), entry)
    decreases |es|
  {
    if es != [] {
      StepKeeps(t, es[0], entry);
      hide Inv, Step, Enabled;
      RunKeeps(Step(t, es[0]), es[1..], entry);
    }
  }

  /**
   * Over every run from an empty table there are no nulls and no repetitions in it; a null was
   * reported only for each null passed to `sendMessageToClient`; and every connection was reported
   * once for each `sendMessageToClient` while it was not connected, and exactly once more if a
   * broadcast has dropped it.
   */
  lemma TableRun<T, M>(start: nat, es: seq<Event<T, M>>, entry: Option<T>)
    requires CanRun(EmptyTable<T, M>(start), es)
    ensures var t := Run(EmptyTable<T, M>(start), es);
            && NoNulls(t.conns) && Distinct(t.conns)
            && multiset(t.calls)[OnClientDisconnect(entry)] ==
               t.deadSends[entry] + if entry.Some? && entry.value in t.ids.accepted && entry !in t.conns then 1 else 0
  {
    RunKeeps(EmptyTable<T, M>(start), es, entry);
  }

  /** `n` calls of `sendMessageToClient` for the same client. */
  function Sends<T, M>(client: T, m: M, n: nat): seq<Event<T, M>> {
    if n == 0 then [] else [SendTo(Some(client), m)] + Sends(client, m, n - 1)
  }

  /**
   * `sendMessageToClient` never removes the dead connection it has found: the table is left as it
   * was, however often it is called, and only the next broadcast removes the entry.
   */
  lemma {:induction false} DeadStaysUntilBroadcast<T, M>(t: Table<T, M>, client: T, m: M, n: nat, ignore: Option<T>)
    requires Shape(t) && Some(client) in t.conns && client !in t.open
    ensures var t' := Run(t, Sends(client, m, n));
            && t'.conns == t.conns
            && multiset(t'.calls)[OnClientDisconnect(Some(client))] == multiset(t.calls)[OnClientDisconnect(Some(client))] + n
            && Some(client) !in Step(t', SendToAll(ignore, m)).conns
    decreases n
  {
    if n == 0 {
      DeadDropped(t, client, m, ignore);
    } else {
      DeadSend(t, client, m);
      hide Step, Shape;
      DeadStaysUntilBroadcast(Step(t, SendTo(Some(client), m)), client, m, n - 1, ignore);
      assert Sends(client, m, n)[0] == SendTo(Some(client), m);
      assert Sends(client, m, n)[1..] == Sends(client, m, n - 1);
    }
  }

  /** A broadcast drops a dead connection. */
  lemma DeadDropped<T, M>(t: Table<T, M>, client: T, m: M, ignore: Option<T>)
    requires client !in t.open
    ensures Some(client) !in Step(t, SendToAll(ignore, m)).conns
  {
    LiveCounts(t.conns, t.open, Some(client));
  }

  /** One send to a dead connection. */
  lemma DeadSend<T, M>(t: Table<T, M>, client: T, m: M)
    requires Shape(t) && Some(client) in t.conns && client !in t.open
    ensures var t' := Step(t, SendTo(Some(client), m));
            && Shape(t') && t'.conns == t.conns && t'.open == t.open
            && multiset(t'.calls)[OnClientDisconnect(Some(client))] == multiset(t.calls)[OnClientDisconnect(Some(client))] + 1
  {
    SendToShape(t, Some(client), m);
    hide Shape, WithoutNulls;
    CountOfConcat(t.calls, [OnClientDisconnect(Some(client))], OnClientDisconnect(Some(client)));
  }

  // ---------------------------------------------------------------- the table, from the events alone

  /** The socket of connection `p` is open after the events `es`. */
  predicate OpenAfter<T(==), M>(es: seq<Event<T, M>>, p: T) {
    es != [] &&
    var before, last := es[..|es| - 1], es[|es| - 1];
    match last
    case Accept(q, live, _) => if q == p then live else OpenAfter(before, p)
    case SocketClosed(q) => q != p && OpenAfter(before, p)
    case _ => OpenAfter(before, p)
  }

  /** Connection `p` was allowed, and no broadcast since has found it closed. */
  predicate InTable<T(==), M>(es: seq<Event<T, M>>, p: T) {
    es != [] &&
    var before, last := es[..|es| - 1], es[|es| - 1];
    match last
    case Accept(q, _, allowed) => if q == p then allowed else InTable(before, p)
    case SendToAll(_, _) => InTable(before, p) && OpenAfter(before, p)
    case _ => InTable(before, p)
  }

  /** The connections that were allowed, in order. */
  function Allowed<T, M>(es: seq<Event<T, M>>): seq<T> {
    if es == [] then []
    else
      var before, last := es[..|es| - 1], es[|es| - 1];
      Allowed(before) + if last.Accept? && last.allowed then [last.p] else []
  }

  /** What an event after the events `before` sends to connection `p`. */
  function SendsTo<T(==), M>(before: seq<Event<T, M>>, e: Event<T, M>, p: T): seq<M> {
    match e
    case SendTo(client, m) => if client == Some(p) && OpenAfter(before, p) then [m] else []
    case SendToAll(ignore, m) => if InTable(before, p) && OpenAfter(before, p) && ignore != Some(p) then [m] else []
    case _ => []
  }

  /** All that the events send to connection `p`, in order. */
  function Sent<T(==), M>(es: seq<Event<T, M>>, p: T): seq<M> {
    if es == [] then []
    else
      var before, last := es[..|es| - 1], es[|es| - 1];
      Sent(before, p) + SendsTo(before, last, p)
  }

  /** How often `sendMessageToClient` was called for a pointer that was null or not connected then. */
  function DeadSends<T(==), M>(es: seq<Event<T, M>>, entry: Option<T>): nat {
    if es == [] then 0
    else
      var before, last := es[..|es| - 1], es[|es| - 1];
      var dead := last.SendTo? && last.client == entry && (entry.None? || !OpenAfter(before, entry.value));
      DeadSends(before, entry) + if dead then 1 else 0
  }

  /** Those of `ps` that are in the table, as entries. */
  function Listed<T(==), M>(ps: seq<T>, es: seq<Event<T, M>>): seq<Option<T>> {
    if ps == [] then []
    else
      var last := |ps| - 1;
      Listed(ps[..last], es) + if InTable(es, ps[last]) then [Some(ps[last])] else []
  }

  lemma Next<T, M>(es: seq<Event<T, M>>, e: Event<T, M>, p: T)
    ensures OpenAfter(es + [e], p) ==
            match e
            case Accept(q, live, _) => if q == p then live else OpenAfter(es, p)
            case SocketClosed(q) => q != p && OpenAfter(es, p)
            case _ => OpenAfter(es, p)
    ensures InTable(es + [e], p) ==
            match e
            case Accept(q, _, allowed) => if q == p then allowed else InTable(es, p)
            case SendToAll(_, _) => InTable(es, p) && OpenAfter(es, p)
            case _ => InTable(es, p)
    ensures Allowed(es + [e]) == Allowed(es) + if e.Accept? && e.allowed then [e.p] else []
    ensures Sent(es + [e], p) == Sent(es, p) + SendsTo(es, e, p)
    ensures DeadSends(es + [e], Some(p)) ==
            DeadSends(es, Some(p)) + if e.SendTo? && e.client == Some(p) && !OpenAfter(es, p) then 1 else 0
    ensures DeadSends(es + [e], None) == DeadSends(es, None) + if e.SendTo? && e.client == None then 1 else 0
  {
    assert (es + [e])[..|es|] == es;
  }

  lemma {:induction false} ListedSame<T, M>(ps: seq<T>, es: seq<Event<T, M>>, fs: seq<Event<T, M>>)
    requires forall p :: p in ps ==> InTable(es, p) == InTable(fs, p)
    ensures Listed(ps, es) == Listed(ps, fs)
  {
    if ps != [] {
      var last := |ps| - 1;
      assert forall p :: p in ps[..last] ==> p in ps;
      assert ps[last] in ps;
      hide InTable;
      ListedSame(ps[..last], es, fs);
    }
  }

  /** A broadcast keeps those in the table that are open. */
  lemma {:induction false} ListedLive<T, M>(ps: seq<T>, es: seq<Event<T, M>>, e: Event<T, M>, open: set<T>)
    requires e.SendToAll? && forall p :: p in ps ==> (p in open <==> OpenAfter(es, p))
    ensures Live(Listed(ps, es), open) == Listed(ps, es + [e])
  {
    if ps != [] {
      var init, last := ps[..|ps| - 1], ps[|ps| - 1];
      assert forall p :: p in init ==> p in ps;
      assert last in ps;
      Next(es, e, last);
      hide InTable, OpenAfter;
      ListedLive(init, es, e, open);
      LiveKeepsOrder(Listed(init, es), if InTable(es, last) then [Some(last)] else [], open);
      LiveOne(Some(last), open);
    }
  }

  lemma LiveOne<T>(entry: Option<T>, open: set<T>)
    ensures Live([entry], open) == if Connected(entry, open) then [entry] else []
    ensures Live([], open) == []
  {
    assert Live([entry][..0], open) == [];
  }

  lemma {:induction false} ListedEntries<T, M>(ps: seq<T>, es: seq<Event<T, M>>, p: T)
    ensures Some(p) in Listed(ps, es) <==> p in ps && InTable(es, p)
  {
    if ps != [] {
      var init, last := ps[..|ps| - 1], ps[|ps| - 1];
      assert ps == init + [last];
      hide InTable;
      ListedEntries(init, es, p);
    }
  }

  lemma {:induction false} OnlyAllowed<T, M>(es: seq<Event<T, M>>, p: T)
    requires InTable(es, p)
    ensures p in Allowed(es)
  {
    var before, last := es[..|es| - 1], es[|es| - 1];
    if !(last.Accept? && last.p == p) {
      OnlyAllowed(before, p);
    }
  }

  /** The table is what the events call for. */
  ghost predicate TableFollows<T, M>(t: Table<T, M>, es: seq<Event<T, M>>) {
    && t.ids.accepted == Allowed(es) && t.conns == Listed(Allowed(es), es)
    && OpenFollows(t.ids.accepted, t.open, es)
    && t.open <= t.made
  }

  ghost predicate OpenFollows<T, M>(ps: seq<T>, open: set<T>, es: seq<Event<T, M>>) {
    forall p :: p in ps ==> (p in open <==> OpenAfter(es, p))
  }

  /** And so is what concerns connection `p`. */
  ghost predicate OneFollows<T, M>(t: Table<T, M>, es: seq<Event<T, M>>, p: T) {
    && (p in t.open <==> OpenAfter(es, p))
    && (p in t.ids.numbered <==> Event.Accept(p, true, true) in es)
    && SentTo(t.calls, p) == Sent(es, p)
    && t.deadSends[Some(p)] == DeadSends(es, Some(p)) && t.deadSends[None] == DeadSends(es, None)
  }

  lemma OpenNext<T, M>(ps: seq<T>, open: set<T>, open': set<T>, es: seq<Event<T, M>>, e: Event<T, M>)
    requires OpenFollows(ps, open, es)
    requires forall p :: p in ps ==> (e.Accept? ==> p != e.p)
    requires forall p :: p in ps ==> (p in open' <==> p in open && e != Event.SocketClosed(p))
    ensures OpenFollows(ps, open', es + [e])
  {
    forall p | p in ps
      ensures p in open' <==> OpenAfter(es + [e], p)
    {
      Next(es, e, p);
    }
  }

  lemma ListedNext<T, M>(ps: seq<T>, es: seq<Event<T, M>>, e: Event<T, M>)
    requires !e.SendToAll? && forall p :: p in ps ==> (e.Accept? ==> p != e.p)
    ensures Listed(ps, es + [e]) == Listed(ps, es)
  {
    forall p | p in ps
      ensures InTable(es + [e], p) == InTable(es, p)
    {
      Next(es, e, p);
    }
    ListedSame(ps, es + [e], es);
  }

  lemma ListedOne<T, M>(ps: seq<T>, p: T, es: seq<Event<T, M>>)
    ensures Listed(ps + [p], es) == Listed(ps, es) + if InTable(es, p) then [Some(p)] else []
  {
    assert (ps + [p])[..|ps|] == ps;
  }

  lemma OpenOne<T, M>(ps: seq<T>, p: T, open: set<T>, es: seq<Event<T, M>>)
    requires OpenFollows(ps, open, es) && (p in open <==> OpenAfter(es, p))
    ensures OpenFollows(ps + [p], open, es)
  {
    hide OpenAfter;
    assert forall q :: q in ps + [p] <==> q in ps || q == p;
  }

  lemma AcceptFollows<T, M>(t: Table<T, M>, es: seq<Event<T, M>>, e: Event<T, M>)
    requires Shape(t) && TableFollows(t, es) && e.Accept? && e.p !in t.made
    ensures TableFollows(Step(t, e), es + [e])
  {
    var open := if e.live then t.open + {e.p} else t.open;
    assert forall q :: q in t.ids.accepted ==> q in t.made;
    assert Step(t, e).open == open && Step(t, e).made == t.made + {e.p};
    assert Step(t, e).ids.accepted == t.ids.accepted + if e.allowed then [e.p] else [];
    assert Step(t, e).conns == t.conns + if e.allowed then [Some(e.p)] else [];
    hide InTable, OpenAfter, Listed, Allowed, OpenFollows, Shape, Step;
    Next(es, e, e.p);
    ListedNext(t.ids.accepted, es, e);
    OpenNext(t.ids.accepted, t.open, open, es, e);
    if e.allowed {
      ListedOne(t.ids.accepted, e.p, es + [e]);
      OpenOne(t.ids.accepted, e.p, open, es + [e]);
    }
  }

  lemma BroadcastFollows<T, M>(t: Table<T, M>, es: seq<Event<T, M>>, e: Event<T, M>)
    requires TableFollows(t, es) && e.SendToAll?
    ensures TableFollows(Step(t, e), es + [e])
  {
    hide InTable, OpenAfter, Live, Listed, Allowed;
    NobodyAllowed(es, e);
    ListedLive(t.ids.accepted, es, e, t.open);
    OpenNext(t.ids.accepted, t.open, t.open, es, e);
  }

  lemma NobodyAllowed<T, M>(es: seq<Event<T, M>>, e: Event<T, M>)
    requires !e.Accept?
    ensures Allowed(es + [e]) == Allowed(es)
  {
    assert (es + [e])[..|es|] == es;
  }

  lemma SendToFollows<T, M>(t: Table<T, M>, es: seq<Event<T, M>>, client: Option<T>, m: M)
    requires Shape(t) && TableFollows(t, es)
    ensures TableFollows(Step(t, SendTo(client, m)), es + [SendTo(client, m)])
  {
    var e := Event<T, M>.SendTo(client, m);
    hide InTable, OpenAfter, Listed, Shape, WithoutNulls, Step, Allowed;
    SendToShape(t, client, m);
    NobodyAllowed(es, e);
    ListedNext(t.ids.accepted, es, e);
    OpenNext(t.ids.accepted, t.open, t.open, es, e);
  }

  lemma CloseFollows<T, M>(t: Table<T, M>, es: seq<Event<T, M>>, p: T)
    requires TableFollows(t, es)
    ensures TableFollows(Step(t, SocketClosed(p)), es + [SocketClosed(p)])
  {
    var e := Event<T, M>.SocketClosed(p);
    hide InTable, OpenAfter, Listed, Allowed;
    NobodyAllowed(es, e);
    ListedNext(t.ids.accepted, es, e);
    OpenNext(t.ids.accepted, t.open, t.open - {p}, es, e);
  }

  /** What a step sends to connection `p` is what its event calls for. */
  lemma SendsFollow<T, M>(t: Table<T, M>, es: seq<Event<T, M>>, e: Event<T, M>, p: T)
    requires Shape(t) && TableFollows(t, es) && (p in t.open <==> OpenAfter(es, p))
    ensures SentTo(Step(t, e).calls, p) == SentTo(t.calls, p) + SendsTo(es, e, p)
  {
    hide InTable, OpenAfter, SentTo, Calls;
    match e
    case Accept(_, _, _) => assert SentTo(t.calls, p) + [] == SentTo(t.calls, p);
    case SocketClosed(_) => assert SentTo(t.calls, p) + [] == SentTo(t.calls, p);
    case SendTo(client, m) =>
      var call: Call<T, M> := if Connected(client, t.open) then SendData(client.value, m) else OnClientDisconnect(client);
      SentToAppend(t.calls, [call], p);
      SentByOne(call, p);
    case SendToAll(ignore, m) =>
      SentToAppend(t.calls, Calls(t.conns, t.open, ignore, m), p);
      OneCallEach(t.conns, t.open, ignore, m, p);
      ListedEntries(Allowed(es), es, p);
      if InTable(es, p) {
        OnlyAllowed(es, p);
      }
  }

  lemma OpenAt<T, M>(t: Table<T, M>, es: seq<Event<T, M>>, e: Event<T, M>, p: T)
    requires Enabled(t, e) && t.open <= t.made && (p in t.open <==> OpenAfter(es, p))
    ensures p in Step(t, e).open <==> OpenAfter(es + [e], p)
  {
    Next(es, e, p);
    hide InTable, OpenAfter, Calls, Live, WithoutNulls, Allowed, SendsTo, DeadSends, Number;
  }

  lemma NumberedAt<T, M>(t: Table<T, M>, es: seq<Event<T, M>>, e: Event<T, M>, p: T)
    requires Enabled(t, e) && t.ids.numbered <= t.made
    requires p in t.ids.numbered <==> Event.Accept(p, true, true) in es
    ensures p in Step(t, e).ids.numbered <==> Event.Accept(p, true, true) in es + [e]
    ensures Step(t, e).ids.numbered <= Step(t, e).made
  {
    hide Calls, Live, WithoutNulls;
    assert Event.Accept(p, true, true) in es + [e] <==> Event.Accept(p, true, true) in es || e == Event.Accept(p, true, true);
  }

  lemma DeadAt<T, M>(t: Table<T, M>, es: seq<Event<T, M>>, e: Event<T, M>, p: T)
    requires p in t.open <==> OpenAfter(es, p)
    requires t.deadSends[Some(p)] == DeadSends(es, Some(p)) && t.deadSends[None] == DeadSends(es, None)
    ensures Step(t, e).deadSends[Some(p)] == DeadSends(es + [e], Some(p))
    ensures Step(t, e).deadSends[None] == DeadSends(es + [e], None)
  {
    Next(es, e, p);
    hide InTable, OpenAfter, Calls, Live, WithoutNulls, Allowed, SendsTo, DeadSends, Number;
  }

  lemma OneNext<T, M>(t: Table<T, M>, es: seq<Event<T, M>>, e: Event<T, M>, p: T)
    requires Shape(t) && TableFollows(t, es) && OneFollows(t, es, p) && Enabled(t, e) && t.ids.numbered <= t.made
    ensures OneFollows(Step(t, e), es + [e], p) && Step(t, e).ids.numbered <= Step(t, e).made
  {
    hide InTable, OpenAfter, SentTo, Sent, SendsTo, DeadSends, Shape, Step, Enabled, Allowed, Listed, OpenFollows;
    SendsFollow(t, es, e, p);
    SentNext(es, e, p);
    OpenAt(t, es, e, p);
    NumberedAt(t, es, e, p);
    DeadAt(t, es, e, p);
  }

  lemma SentNext<T, M>(es: seq<Event<T, M>>, e: Event<T, M>, p: T)
    ensures Sent(es + [e], p) == Sent(es, p) + SendsTo(es, e, p)
  {
    assert (es + [e])[..|es|] == es;
  }

  /** All of that. */
  ghost predicate Follows<T, M>(t: Table<T, M>, es: seq<Event<T, M>>, p: T) {
    Shape(t) && TableFollows(t, es) && OneFollows(t, es, p) && t.ids.numbered <= t.made
  }

  lemma ShapeStep<T, M>(t: Table<T, M>, e: Event<T, M>)
    requires Shape(t) && Enabled(t, e)
    ensures Shape(Step(t, e))
  {
    match e
    case Accept(p, live, allowed) => AcceptShape(t, p, live, allowed);
    case SendTo(client, m) => SendToShape(t, client, m);
    case SendToAll(ignore, m) => BroadcastShape(t, ignore, m);
    case SocketClosed(p) =>
  }

  lemma FollowsNext<T, M>(t: Table<T, M>, es: seq<Event<T, M>>, e: Event<T, M>, p: T)
    requires Follows(t, es, p) && Enabled(t, e)
    ensures Follows(Step(t, e), es + [e], p)
  {
    hide Shape, TableFollows, OneFollows, Live, Calls, WithoutNulls;
    ShapeStep(t, e);
    OneNext(t, es, e, p);
    match e
    case Accept(_, _, _) => AcceptFollows(t, es, e);
    case SendTo(client, m) => SendToFollows(t, es, client, m);
    case SendToAll(_, _) => BroadcastFollows(t, es, e);
    case SocketClosed(q) => CloseFollows(t, es, q);
  }

  lemma {:induction false} FollowsRun<T, M>(t: Table<T, M>, earlier: seq<Event<T, M>>, es: seq<Event<T, M>>, p: T)
    requires Follows(t, earlier, p) && CanRun(t, es)
    ensures Follows(Run(t, es), earlier + es, p)
    decreases |es|
  {
    hide Follows, Step, Enabled;
    OneByOne(earlier, es);
    if es != [] {
      FollowsNext(t, earlier, es[0], p);
      FollowsRun(Step(t, es[0]), earlier + [es[0]], es[1..], p);
    }
  }

  lemma NothingYet<T, M>(start: nat, p: T)
    ensures Follows(EmptyTable<T, M>(start), [], p)
  {
  }

  /**
   * The server does what the events call for, over every run: the connections accepted are exactly
   * those the application allowed, in order; the table holds those of them that no broadcast has
   * found closed, in order; a connection has an identifier if and only if it was allowed while open;
   * and it was sent exactly what was sent to it alone while it was open, and every broadcast for
   * which it was in the table, open and not ignored.
   */
  lemma RunFollowsEvents<T, M>(start: nat, es: seq<Event<T, M>>, p: T)
    requires CanRun(EmptyTable<T, M>(start), es)
    ensures var t := Run(EmptyTable<T, M>(start), es);
            && t.ids.accepted == Allowed(es) && t.conns == Listed(Allowed(es), es)
            && (Some(p) in t.conns <==> InTable(es, p))
            && (p in t.open <==> OpenAfter(es, p))
            && (p in t.ids.numbered <==> Event.Accept(p, true, true) in es)
            && SentTo(t.calls, p) == Sent(es, p)
            && t.deadSends[Some(p)] == DeadSends(es, Some(p)) && t.deadSends[None] == DeadSends(es, None)
  {
    hide InTable, OpenAfter, SentTo, Sent, DeadSends, Shape, Run, CanRun, Listed, Allowed;
    NothingYet<T, M>(start, p);
    NothingFirst(es);
    FollowsRun(EmptyTable<T, M>(start), [], es, p);
    ListedEntries(Allowed(es), es, p);
    if InTable(es, p) {
      OnlyAllowed(es, p);
    }
  }

  lemma {:induction false} StaysOut<T, M>(t: Table<T, M>, es: seq<Event<T, M>>, p: T)
    requires Shape(t) && CanRun(t, es) && p in t.made && p !in t.ids.accepted && p !in t.ids.numbered
    ensures var t' := Run(t, es); Some(p) !in t'.conns && p !in t'.ids.accepted && p !in t'.ids.numbered
    decreases |es|
  {
    if es != [] {
      ShapeStep(t, es[0]);
      hide Shape;
      StaysOut(Step(t, es[0]), es[1..], p);
    }
  }

  lemma {:induction false} DeniedLater<T, M>(t: Table<T, M>, es: seq<Event<T, M>>, k: nat, p: T)
    requires Shape(t) && CanRun(t, es) && t.ids.numbered <= t.made
    requires k < |es| && es[k].Accept? && es[k].p == p && !es[k].allowed
    ensures var t' := Run(t, es); Some(p) !in t'.conns && p !in t'.ids.accepted && p !in t'.ids.numbered
    decreases |es|
  {
    ShapeStep(t, es[0]);
    if k == 0 {
      StaysOut(Step(t, es[0]), es[1..], p);
    } else {
      hide Shape;
      DeniedLater(Step(t, es[0]), es[1..], k - 1, p);
    }
  }

  /** Over every run a connection the application denies is never in the table and never numbered. */
  lemma DeniedStaysOut<T, M>(start: nat, es: seq<Event<T, M>>, k: nat, p: T)
    requires CanRun(EmptyTable<T, M>(start), es) && k < |es| && es[k].Accept? && es[k].p == p && !es[k].allowed
    ensures var t := Run(EmptyTable<T, M>(start), es);
            Some(p) !in t.conns && p !in t.ids.accepted && p !in t.ids.numbered
  {
    DeniedLater(EmptyTable<T, M>(start), es, k, p);
  }

  // ---------------------------------------------------------------- identifiers

  /** The identifier of accepted connection number `k`, from whatever value the counter starts. */
  function IdOf(start: nat, k: nat): nat {
    Wrap32(start + k)
  }

  /** Identifiers are assigned in the order of acceptance, and only to connections open at that time. */
  ghost predicate IdsOk<T>(n: Numbering<T>, made: set<T>, start: nat) {
    && n.counter == IdOf(start, |n.accepted|)
    && (forall j, k :: 0 <= j < k < |n.accepted| ==> n.accepted[j] != n.accepted[k])
    && (forall k :: 0 <= k < |n.accepted| ==> n.accepted[k] in made)
    && (forall p :: p in n.numbered ==> p in n.accepted)
    && n.id.Keys == made
    && (forall p :: p in made && p !in n.numbered ==> n.id[p] == 0)
    && (forall k :: 0 <= k < |n.accepted| && n.accepted[k] in n.numbered ==> n.id[n.accepted[k]] == IdOf(start, k))
  }

  lemma NumberKeeps<T>(n: Numbering<T>, made: set<T>, start: nat, p: T, live: bool, allowed: bool)
    requires IdsOk(n, made, start) && p !in made
    ensures IdsOk(Number(n, p, live, allowed), made + {p}, start)
  {
    hide Cell;
    CounterMoves(start, |n.accepted|);
    var n' := Number(n, p, live, allowed);
    forall q | q in n'.numbered
      ensures q in n'.accepted
    {
      assert q in n.accepted || q == n'.accepted[|n.accepted|];
    }
  }

  lemma CounterMoves(start: nat, k: nat)
    ensures Wrap32(IdOf(start, k) + 1) == IdOf(start, k + 1)
  {
    CellAdd(start + k, 1, TWO32);
    assert start + k + 1 == start + (k + 1);
  }

  lemma {:induction false} IdsKept<T, M>(t: Table<T, M>, es: seq<Event<T, M>>, start: nat)
    requires IdsOk(t.ids, t.made, start) && CanRun(t, es)
    ensures IdsOk(Run(t, es).ids, Run(t, es).made, start)
    decreases |es|
  {
    if es != [] {
      if es[0].Accept? {
        NumberKeeps(t.ids, t.made, start, es[0].p, es[0].live, es[0].allowed);
      }
      hide IdsOk;
      IdsKept(Step(t, es[0]), es[1..], start);
    }
  }

  /** No two connections that were open when accepted have the same identifier. */
  ghost predicate IdsDistinct<T>(n: Numbering<T>)
    requires n.numbered <= n.id.Keys
  {
    forall p, q :: p in n.numbered && q in n.numbered && p != q ==> n.id[p] != n.id[q]
  }

  /**
   * Over every run: accepted connection number `k` has the counter's start plus `k` as identifier,
   * modulo 2^32, if it was open then; every other connection keeps 0; and the identifiers assigned
   * are pairwise different as long as no more than 2^32 connections were accepted.
   */
  lemma IdsOverRuns<T, M>(start: nat, es: seq<Event<T, M>>)
    requires start < TWO32 && CanRun(EmptyTable<T, M>(start), es)
    ensures var n := Run(EmptyTable<T, M>(start), es).ids;
            && n.numbered <= n.id.Keys
            && (forall k :: 0 <= k < |n.accepted| && n.accepted[k] in n.numbered ==> n.id[n.accepted[k]] == IdOf(start, k))
            && (forall p :: p in n.id && p !in n.numbered ==> n.id[p] == 0)
            && (|n.accepted| <= TWO32 ==> IdsDistinct(n))
  {
    var t := Run(EmptyTable<T, M>(start), es);
    IdsKept(EmptyTable<T, M>(start), es, start);
    hide Run, CanRun, Cell;
    if |t.ids.accepted| <= TWO32 {
      FewIdsDistinct(t.ids, t.made, start);
    }
  }

  lemma FewIdsDistinct<T>(n: Numbering<T>, made: set<T>, start: nat)
    requires IdsOk(n, made, start) && |n.accepted| <= TWO32 && n.numbered <= n.id.Keys
    ensures IdsDistinct(n)
  {
    hide Cell;
    forall j, k | 0 <= j < k < |n.accepted|
      ensures IdOf(start, j) != IdOf(start, k)
    {
      CellDistinct(start + j, start + k, TWO32);
    }
  }

  /** The accept handler runs for the connections `j`, `j + 1`, ..., all open and allowed. */
  function Accepts<M>(j: nat, count: nat): seq<Event<nat, M>>
    decreases count
  {
    if count == 0 then [] else [Event.Accept(j, true, true)] + Accepts(j + 1, count - 1)
  }

  lemma {:induction false} AcceptsRun<M>(t: Table<nat, M>, j: nat, count: nat)
    requires forall p :: p in t.made ==> p < j
    ensures CanRun(t, Accepts(j, count))
    ensures var n := Run(t, Accepts(j, count)).ids;
            && |n.accepted| == |t.ids.accepted| + count && t.ids.accepted <= n.accepted
            && t.ids.numbered <= n.numbered
            && forall k :: |t.ids.accepted| <= k < |n.accepted| ==>
                 n.accepted[k] == j + k - |t.ids.accepted| && n.accepted[k] in n.numbered
    decreases count
  {
    if count > 0 {
      var t' := Step(t, Event.Accept(j, true, true));
      AcceptsRun(t', j + 1, count - 1);
      hide Run, CanRun;
      RunFirst(t, Event.Accept(j, true, true), Accepts(j + 1, count - 1));
    }
  }

  lemma RunFirst<T, M>(t: Table<T, M>, e: Event<T, M>, es: seq<Event<T, M>>)
    requires Enabled(t, e) && CanRun(Step(t, e), es)
    ensures CanRun(t, [e] + es) && Run(t, [e] + es) == Run(Step(t, e), es)
  {
    assert ([e] + es)[1..] == es;
  }

  lemma {:induction false} RunTogether<T, M>(t: Table<T, M>, es: seq<Event<T, M>>, fs: seq<Event<T, M>>)
    requires CanRun(t, es) && CanRun(Run(t, es), fs)
    ensures CanRun(t, es + fs) && Run(t, es + fs) == Run(Run(t, es), fs)
    decreases |es|
  {
    hide Step, Enabled;
    if es == [] {
      assert es + fs == fs;
    } else {
      assert (es + fs)[0] == es[0] && (es + fs)[1..] == es[1..] + fs;
      RunTogether(Step(t, es[0]), es[1..], fs);
    }
  }

  /**
   * The bound is exact: identifiers are pairwise different in every run that accepts at most `n`
   * connections if and only if `n` is at most 2^32, whatever the uninitialised counter held.
   */
  lemma IdsDistinctExact<M(!new)>(start: nat, n: nat)
    requires start < TWO32
    ensures (forall es: seq<Event<nat, M>> :: TooManyAccepts(start, n, es) || AllDistinct(start, es)) <==> n <= TWO32
  {
    if n <= TWO32 {
      forall es: seq<Event<nat, M>>
        ensures TooManyAccepts(start, n, es) || AllDistinct(start, es)
      {
        if !TooManyAccepts(start, n, es) {
          IdsOverRuns(start, es);
        }
      }
    } else {
      var es := Accepts<M>(0, TWO32 + 1);
      AcceptsRun(EmptyTable<nat, M>(start), 0, TWO32 + 1);
      hide Accepts, Run, CanRun, Cell;
      IdsOverRuns(start, es);
      var ids := Run(EmptyTable<nat, M>(start), es).ids;
      assert ids.accepted[0] == 0 && ids.accepted[TWO32] == TWO32;
      SameIdAfterLap(start);
      assert 0 in ids.numbered && TWO32 in ids.numbered && ids.id[0] == ids.id[TWO32];
      assert !TooManyAccepts(start, n, es) && !AllDistinct(start, es);
    }
  }

  lemma SameIdAfterLap(start: nat)
    ensures IdOf(start, 0) == IdOf(start, TWO32)
  {
    CellStep(start, TWO32, TWO32);
    assert start + 0 == start;
  }

  /** No run of a new server, or one that accepts more than `n` connections. */
  predicate TooManyAccepts<M>(start: nat, n: nat, es: seq<Event<nat, M>>) {
    !CanRun(EmptyTable(start), es) || |Run(EmptyTable(start), es).ids.accepted| > n
  }

  ghost predicate AllDistinct<M>(start: nat, es: seq<Event<nat, M>>) {
    var n := Run(EmptyTable(start), es).ids;
    n.numbered <= n.id.Keys && IdsDistinct(n)
  }

  // ---------------------------------------------------------------- the table as an object

  class Peer {
    var open: bool
    var id: nat

    constructor (open: bool)
      ensures this.open == open && id == 0
    {
      this.open, id := open, 0;
    }
  }

  class Server<M> {
    var connections: seq<Option<Peer>>
    var idCounter: nat
    /** The calls made so far, in order. */
    var calls: seq<Call<Peer, M>>
    ghost var made: set<Peer>
    ghost var accepted: seq<Peer>
    ghost var numbered: set<Peer>
    ghost var deadSends: multiset<Option<Peer>>

    ghost function Open(): set<Peer>
      reads this`made, made
    {
      set p | p in made && p.open
    }

    ghost function Ids(): map<Peer, nat>
      reads this`made, made
    {
      map p | p in made :: p.id
    }

    ghost function Now(): Table<Peer, M>
      reads this, made
    {
      Table(connections, Open(), calls, made, deadSends, Numbering(idCounter, Ids(), accepted, numbered))
    }

    ghost predicate Valid()
      reads this, made
    {
      Shape(Now())
    }

    constructor (counter: nat)
      requires counter < TWO32
      ensures Valid() && Now() == EmptyTable(counter)
    {
      connections, calls, idCounter := [], [], counter;
      made, accepted, numbered, deadSends := {}, [], {}, multiset{};
      new;
      assert Ids() == map[];
    }

    /** The accept handler, for a socket that is still open or not; the application allows or denies. */
    method Accept(live: bool, allowed: bool) returns (connection: Peer)
      requires Valid()
      modifies this
      ensures fresh(connection) && Valid() && Now() == Step(old(Now()), Event.Accept(connection, live, allowed))
    {
      ghost var before := Now();
      connection := new Peer(live);
      AcceptShape(before, connection, live, allowed);
      hide Shape;
      var id := idCounter;
      if allowed {
        Admit(connection, live);
      }
      ConnectToClient(connection, id, allowed);
    }

    /** The connection goes into the table and the counter moves on. */
    method Admit(connection: Peer, ghost live: bool)
      modifies this`connections, this`idCounter, this`accepted, this`numbered
      ensures connections == old(connections) + [Some(connection)] && idCounter == Wrap32(old(idCounter) + 1)
      ensures accepted == old(accepted) + [connection]
      ensures numbered == if live then old(numbered) + {connection} else old(numbered)
    {
      connections := connections + [Some(connection)];
      idCounter := Wrap32(idCounter + 1);
      accepted := accepted + [connection];
      numbered := if live then numbered + {connection} else numbered;
    }

    /** The new connection takes the identifier if it was allowed and its socket is open. */
    method ConnectToClient(connection: Peer, id: nat, allowed: bool)
      requires connection !in made && connection.id == 0
      modifies this`made, connection`id
      ensures made == old(made) + {connection}
      ensures Open() == old(Open()) + if connection.open then {connection} else {}
      ensures Ids() == old(Ids())[connection := if allowed && connection.open then id else 0]
    {
      if allowed && connection.open {
        connection.id := id;
      }
      made := made + {connection};
    }

    /** A read or write handler of a connection closes its socket. */
    method OnSocketClosed(connection: Peer)
      requires Valid() && connection in made
      modifies connection`open
      ensures Valid() && Now() == Step(old(Now()), SocketClosed(connection))
    {
      connection.open := false;
      assert Open() == old(Open()) - {connection};
      assert Ids() == old(Ids());
    }

    method SendMessageToClient(client: Option<Peer>, m: M)
      requires Valid() && (client.Some? ==> client.value in made)
      modifies this`connections, this`calls, this`deadSends
      ensures Valid() && Now() == Step(old(Now()), SendTo(client, m))
      ensures connections == old(connections)
    {
      SendToShape(Now(), client, m);
      hide Shape, WithoutNulls, Step;
      if client.Some? && client.value.open {
        calls := calls + [SendData(client.value, m)];
      } else {
        ReportDisconnected(client);
      }
    }

    /** The branch for a client that is not connected: it resets its own copy of the pointer, then erases nulls. */
    method ReportDisconnected(client: Option<Peer>)
      modifies this`connections, this`calls, this`deadSends
      ensures connections == WithoutNulls(old(connections))
      ensures calls == old(calls) + [OnClientDisconnect(client)]
      ensures deadSends == old(deadSends) + multiset{client}
    {
      calls := calls + [OnClientDisconnect(client)];
      deadSends := deadSends + multiset{client};
      EraseNulls();
    }

    method EraseNulls()
      modifies this`connections
      ensures connections == WithoutNulls(old(connections))
    {
      var kept: seq<Option<Peer>> := [];
      for i := 0 to |connections|
        invariant connections == old(connections)
        invariant kept == WithoutNulls(connections[..i])
      {
        assert connections[..i + 1][..i] == connections[..i];
        if connections[i].Some? {
          kept := kept + [connections[i]];
        }
      }
      assert connections[..|connections|] == connections;
      connections := kept;
    }

    method SendMessageToAllClients(m: M, ignore: Option<Peer>)
      requires Valid()
      modifies this`connections, this`calls
      ensures Valid() && Now() == Step(old(Now()), SendToAll(ignore, m))
    {
      BroadcastShape(Now(), ignore, m);
      OpenIsConnected();
      hide Step, Shape;
      SweepAndErase(m, ignore, Open());
    }

    method SweepAndErase(m: M, ignore: Option<Peer>, ghost open: set<Peer>)
      requires forall e :: e in connections ==> (Connected(e, open) <==> e.Some? && e.value.open)
      modifies this`connections, this`calls
      ensures connections == Live(old(connections), open)
      ensures calls == old(calls) + Calls(old(connections), open, ignore, m)
    {
      EndOfSweep(connections, open, ignore, m);
      hide Calls, Reset, Live, WithoutNulls, Connected;
      var invalidClientExists := Sweep(m, ignore, open);
      if invalidClientExists {
        EraseNulls();
      } else {
        NothingToErase(connections);
      }
    }

    /** The loop over all connections; it says whether it has reset any of them. */
    method Sweep(m: M, ignore: Option<Peer>, ghost open: set<Peer>) returns (invalidClientExists: bool)
      requires forall e :: e in connections ==> (Connected(e, open) <==> e.Some? && e.value.open)
      modifies this`connections, this`calls
      ensures connections == Reset(old(connections), open)
      ensures calls == old(calls) + Calls(old(connections), open, ignore, m)
      ensures !invalidClientExists ==> NoNulls(connections)
    {
      ghost var before := connections;
      hide Swept, CallsBefore, Calls, CallsFor, Reset, Connected;
      StartOfSweep(before, open, ignore, m);
      invalidClientExists := false;
      var i := 0;
      while i < |connections|
        invariant 0 <= i <= |connections| == |before|
        invariant connections == Swept(before, open, i)
        invariant calls == old(calls) + CallsBefore(before, open, ignore, m, i)
        invariant !invalidClientExists ==> forall k :: 0 <= k < i ==> connections[k] != None
      {
        var connection := connections[i];
        assert before[i] in before;
        SweepStep(before, open, ignore, m, i, old(calls));
        if connection.Some? && connection.value.open {
          if connection != ignore {
            calls := calls + [SendData(connection.value, m)];
          }
        } else {
          calls := calls + [OnClientDisconnect(connection)];
          connections := connections[i := None];
          invalidClientExists := true;
        }
        i := i + 1;
      }
      EndOfSweep(before, open, ignore, m);
    }

    lemma OpenIsConnected()
      requires Valid()
      ensures forall e :: e in connections ==> (Connected(e, Open()) <==> e.Some? && e.value.open)
    {
    }
  }

  /** The table when the broadcast loop has visited its first `i` entries. */
  function Swept<T(==)>(before: seq<Option<T>>, open: set<T>, i: nat): (r: seq<Option<T>>)
    requires i <= |before|
    ensures |r| == |before|
  {
    Reset(before, open)[..i] + before[i..]
  }

  /** The calls the broadcast loop has made by then. */
  function CallsBefore<T(==), M>(before: seq<Option<T>>, open: set<T>, ignore: Option<T>, m: M, i: nat): seq<Call<T, M>>
    requires i <= |before|
  {
    Calls(before[..i], open, ignore, m)
  }

  lemma StartOfSweep<T, M>(before: seq<Option<T>>, open: set<T>, ignore: Option<T>, m: M)
    ensures Swept(before, open, 0) == before && CallsBefore(before, open, ignore, m, 0) == []
  {
  }

  lemma EndOfSweep<T, M>(before: seq<Option<T>>, open: set<T>, ignore: Option<T>, m: M)
    ensures Swept(before, open, |before|) == Reset(before, open)
    ensures CallsBefore(before, open, ignore, m, |before|) == Calls(before, open, ignore, m)
    ensures WithoutNulls(Reset(before, open)) == Live(before, open) && NoNulls(Live(before, open))
  {
    assert before[..|before|] == before;
    ResetAndErase(before, open);
    LiveCounts(before, open, None);
  }

  lemma SweptStep<T>(before: seq<Option<T>>, open: set<T>, i: nat)
    requires i < |before|
    ensures var swept, e := Swept(before, open, i), before[i];
            swept[i] == e && Swept(before, open, i + 1) == swept[i := if Connected(e, open) then e else None]
  {
    hide Connected;
    var r := Reset(before, open);
    assert before[i..] == [before[i]] + before[i + 1..];
    assert r[..i + 1] == r[..i] + [r[i]];
  }

  /** One turn of the broadcast loop, after the calls `earlier`. */
  lemma SweepStep<T, M>(before: seq<Option<T>>, open: set<T>, ignore: Option<T>, m: M, i: nat, earlier: seq<Call<T, M>>)
    requires i < |before|
    ensures var e, swept := before[i], Swept(before, open, i);
            && swept[i] == e
            && Swept(before, open, i + 1) == (if Connected(e, open) then swept else swept[i := None])
    ensures var e, calls, calls' := before[i], earlier + CallsBefore(before, open, ignore, m, i), earlier + CallsBefore(before, open, ignore, m, i + 1);
            && (!Connected(e, open) ==> calls' == calls + [OnClientDisconnect(e)])
            && (Connected(e, open) && e != ignore ==> e.Some? && calls' == calls + [SendData(e.value, m)])
            && (Connected(e, open) && e == ignore ==> calls' == calls)
  {
    SweptStep(before, open, i);
    assert before[..i + 1][..i] == before[..i];
    assert CallsBefore(before, open, ignore, m, i + 1)
        == CallsBefore(before, open, ignore, m, i) + CallsFor(before[i], open, ignore, m);
  }
}

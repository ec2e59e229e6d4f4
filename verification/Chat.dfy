/**
 * The chat server: a broadcast over per-session outgoing queues. One global log of broadcasts is
 * kept beside it, and every client's stream turns out to be a contiguous piece of that log.
 */
module Chat {
  import opened Wrappers

  datatype Note = Welcome | Newcomer | OneLess | Said(from: nat, text: string)

  /**
   * A session: its outgoing queue, what has been written, the operations outstanding, and where in
   * the log it joined and left. `fault` records a second write or a pop from an empty queue.
   */
  datatype Session = Session(queue: seq<Note>, sent: seq<Note>, writing: bool, reading: bool, open: bool,
                             joinedAt: nat, leftAt: Option<nat>, fault: bool)

  /** The server: all sessions ever accepted, those in `clients_`, and the log of broadcasts. */
  datatype State = State(sessions: seq<Session>, clients: set<nat>, log: seq<Note>)

  datatype Event =
    | Accept
    | ReadOk(i: nat, text: string)
    | ReadFailed(i: nat)
    | WriteOk(i: nat)
    | WriteFailed(i: nat)

  // ---------------------------------------------------------------- handlers

  /** `Session::post`: only a message for an empty queue begins a write. */
  function Enqueue(s: Session, note: Note): Session {
    var s' := s.(queue := s.queue + [note]);
    if s.queue != [] then s'
    else if s.writing then s'.(fault := true)
    else s'.(writing := true)
  }

  /** `Server::post`: every session in `clients_` gets the message. */
  function Post(c: State, note: Note): (c': State)
    ensures |c'.sessions| == |c.sessions|
  {
    State(seq(|c.sessions|, i requires 0 <= i < |c.sessions| =>
                if i in c.clients then Enqueue(c.sessions[i], note) else c.sessions[i]),
          c.clients, c.log + [note])
  }

  /** A session as it is when it has been welcomed and started, with `joinedAt` notes in the log. */
  function NewSession(joinedAt: nat): Session {
    Enqueue(Session([], [], false, true, true, joinedAt, None, false), Welcome)
  }

  function AcceptStep(c: State): State {
    var c' := Post(c, Newcomer);
    c'.(sessions := c'.sessions + [NewSession(|c'.log|)], clients := c'.clients + {|c.sessions|})
  }

  /** The on-error lambda: only the first call for a client erases it and tells the others. */
  function OnError(c: State, i: nat): State
    requires i < |c.sessions|
  {
    if i !in c.clients then c
    else Post(c.(sessions := c.sessions[i := c.sessions[i].(leftAt := Some(|c.log|))], clients := c.clients - {i}), OneLess)
  }

  function Written(s: Session): Session {
    if s.queue == [] then s.(fault := true)
    else s.(queue := s.queue[1..], sent := s.sent + [s.queue[0]], writing := |s.queue| > 1)
  }

  // ---------------------------------------------------------------- steps and runs

  predicate Enabled(c: State, e: Event) {
    match e
    case Accept => true
    case ReadOk(i, _) => i < |c.sessions| && c.sessions[i].reading
    case ReadFailed(i) => i < |c.sessions| && c.sessions[i].reading
    case WriteOk(i) => i < |c.sessions| && c.sessions[i].writing
    case WriteFailed(i) => i < |c.sessions| && c.sessions[i].writing
  }

  function Step(c: State, e: Event): State
    requires Enabled(c, e)
  {
    match e
    case Accept => AcceptStep(c)
    case ReadOk(i, text) => Post(c, Said(i, text))
    case ReadFailed(i) => OnError(c.(sessions := c.sessions[i := c.sessions[i].(reading := false, open := false)]), i)
    case WriteOk(i) => c.(sessions := c.sessions[i := Written(c.sessions[i])])
    case WriteFailed(i) => OnError(c.(sessions := c.sessions[i := c.sessions[i].(writing := false, open := false)]), i)
  }

  predicate CanRun(c: State, es: seq<Event>)
    decreases |es|
  {
    es != [] ==> Enabled(c, es[0]) && CanRun(Step(c, es[0]), es[1..])
  }

  function Run(c: State, es: seq<Event>): State
    requires CanRun(c, es)
    decreases |es|
  {
    if es == [] then c else Run(Step(c, es[0]), es[1..])
  }

  const EMPTY: State := State([], {}, [])

  // ---------------------------------------------------------------- the invariant

  function Count(log: seq<Note>, note: Note): nat {
    multiset(log)[note]
  }

  /** Where the piece of the log meant for a session ends. */
  function LeavesAt(s: Session, log: seq<Note>): nat {
    if s.leftAt.Some? then s.leftAt.value else |log|
  }

  /** Written and pending messages are the welcome and the session's piece of the log. */
  ghost predicate StreamOk(s: Session, log: seq<Note>) {
    && s.joinedAt <= LeavesAt(s, log) <= |log|
    && s.sent + s.queue == [Welcome] + log[s.joinedAt..LeavesAt(s, log)]
  }

  /** A session that is a client has a write in flight exactly while its queue is non-empty. */
  ghost predicate WriteOkay(s: Session) {
    && !s.fault
    && (s.writing ==> s.queue != [])
    && (s.leftAt.None? ==> s.open && s.reading && (s.queue != [] ==> s.writing))
  }

  /** The session joined with newcomer notice number `i` and left with a notice of its own. */
  ghost predicate PlaceOk(s: Session, i: nat, log: seq<Note>)
    requires StreamOk(s, log)
  {
    && 0 < s.joinedAt && log[s.joinedAt - 1] == Newcomer && Count(log[..s.joinedAt], Newcomer) == i + 1
    && (s.leftAt.Some? ==> s.leftAt.value < |log| && log[s.leftAt.value] == OneLess)
  }

  ghost predicate SessionOk(s: Session, i: nat, log: seq<Note>) {
    StreamOk(s, log) && WriteOkay(s) && PlaceOk(s, i, log)
  }

  /** Which departure notice is whose: every departed session has one of its own, and every one has a session. */
  ghost predicate Notices(sessions: seq<Session>, log: seq<Note>) {
    && (forall i :: 0 <= i < |sessions| && sessions[i].leftAt.Some? ==> sessions[i].leftAt.value < |log|)
    && (forall i, j :: 0 <= i < j < |sessions| && sessions[i].leftAt.Some? ==> sessions[i].leftAt != sessions[j].leftAt)
    && (forall k :: 0 <= k < |log| && log[k] == OneLess ==> HasLeft(sessions, k))
  }

  /** Some session left with the notice at place `k` of the log. */
  ghost predicate HasLeft(sessions: seq<Session>, k: nat) {
    exists i :: 0 <= i < |sessions| && sessions[i].leftAt == Some(k)
  }

  ghost predicate SameLefts(a: seq<Session>, b: seq<Session>) {
    |a| == |b| && forall i :: 0 <= i < |a| ==> a[i].leftAt == b[i].leftAt
  }

  ghost predicate Inv(c: State) {
    && Notices(c.sessions, c.log)
    && (forall i :: 0 <= i < |c.sessions| ==> SessionOk(c.sessions[i], i, c.log))
    && (forall i :: i in c.clients <==> 0 <= i < |c.sessions| && c.sessions[i].leftAt.None?)
    && Count(c.log, Newcomer) == |c.sessions|
    && |c.clients| + Count(c.log, OneLess) == |c.sessions|
  }

  // ---------------------------------------------------------------- every step keeps it

  /** A session that gets a note that is appended to the log. */
  lemma EnqueueKeeps(s: Session, i: nat, log: seq<Note>, note: Note)
    requires SessionOk(s, i, log) && s.leftAt.None?
    ensures SessionOk(Enqueue(s, note), i, log + [note])
  {
    var log' := log + [note];
    assert log'[s.joinedAt..|log'|] == log[s.joinedAt..|log|] + [note];
    assert log'[..s.joinedAt] == log[..s.joinedAt];
    assert s.sent + (s.queue + [note]) == (s.sent + s.queue) + [note];
  }

  /** A session that has left does not see what is appended to the log. */
  lemma LeftKeeps(s: Session, i: nat, log: seq<Note>, note: Note)
    requires SessionOk(s, i, log) && s.leftAt.Some?
    ensures SessionOk(s, i, log + [note])
  {
    var log' := log + [note];
    assert log'[s.joinedAt..s.leftAt.value] == log[s.joinedAt..s.leftAt.value];
    assert log'[..s.joinedAt] == log[..s.joinedAt];
  }

  /** A session that leaves with the note that is appended to the log. */
  lemma LeavingKeeps(s: Session, i: nat, log: seq<Note>)
    requires SessionOk(s, i, log) && s.leftAt.None?
    ensures SessionOk(s.(leftAt := Some(|log|)), i, log + [OneLess])
  {
    var log' := log + [OneLess];
    assert log'[s.joinedAt..|log|] == log[s.joinedAt..|log|];
    assert log'[..s.joinedAt] == log[..s.joinedAt];
  }

  /** What is appended to the log is no departure notice, if anything is. */
  lemma NoticesKept(a: seq<Session>, b: seq<Session>, log: seq<Note>, more: seq<Note>)
    requires Notices(a, log) && SameLefts(a, b) && OneLess !in more
    ensures Notices(b, log + more)
  {
    forall k | 0 <= k < |log + more| && (log + more)[k] == OneLess
      ensures HasLeft(b, k)
    {
      assert log[k] == OneLess && HasLeft(a, k);
      var i :| 0 <= i < |a| && a[i].leftAt == Some(k);
      assert b[i].leftAt == Some(k);
    }
  }

  /** A session joins. */
  lemma NoticesJoin(a: seq<Session>, s: Session, log: seq<Note>)
    requires Notices(a, log) && s.leftAt.None?
    ensures Notices(a + [s], log)
  {
    forall k | 0 <= k < |log| && log[k] == OneLess
      ensures HasLeft(a + [s], k)
    {
      assert HasLeft(a, k);
      var i :| 0 <= i < |a| && a[i].leftAt == Some(k);
      assert (a + [s])[i].leftAt == Some(k);
    }
  }

  /** Session `i` leaves with the notice that is appended to the log. */
  lemma NoticesLeave(a: seq<Session>, b: seq<Session>, i: nat, log: seq<Note>)
    requires Notices(a, log) && i < |a| && a[i].leftAt.None?
    requires |b| == |a| && b[i].leftAt == Some(|log|)
    requires forall k :: 0 <= k < |a| && k != i ==> b[k].leftAt == a[k].leftAt
    ensures Notices(b, log + [OneLess])
  {
    forall k | 0 <= k < |log + [OneLess]| && (log + [OneLess])[k] == OneLess
      ensures HasLeft(b, k)
    {
      if k == |log| {
        assert b[i].leftAt == Some(k);
      } else {
        assert log[k] == OneLess && HasLeft(a, k);
        var j :| 0 <= j < |a| && a[j].leftAt == Some(k);
        assert b[j].leftAt == Some(k);
      }
    }
  }

  /** A broadcast moves no session's place of leaving. */
  lemma PostLefts(c: State, note: Note)
    ensures SameLefts(c.sessions, Post(c, note).sessions)
    ensures Post(c, note).clients == c.clients && Post(c, note).log == c.log + [note]
  {
  }

  /** A broadcast, session by session. */
  lemma PostEach(c: State, note: Note, sessions: seq<Session>)
    requires |sessions| == |c.sessions|
    requires forall i :: 0 <= i < |sessions| ==>
               sessions[i] == if i in c.clients then Enqueue(c.sessions[i], note) else c.sessions[i]
    ensures Post(c, note) == State(sessions, c.clients, c.log + [note])
  {
  }

  /** Every session but those marked as leaving is in order after a broadcast. */
  lemma PostKeeps(c: State, note: Note, k: nat)
    requires k < |c.sessions| && SessionOk(c.sessions[k], k, c.log)
    requires k in c.clients <==> c.sessions[k].leftAt.None?
    ensures SessionOk(Post(c, note).sessions[k], k, Post(c, note).log)
  {
    if k in c.clients {
      EnqueueKeeps(c.sessions[k], k, c.log, note);
    } else {
      LeftKeeps(c.sessions[k], k, c.log, note);
    }
  }

  lemma CountAppend(log: seq<Note>, note: Note, n: Note)
    ensures Count(log + [note], n) == Count(log, n) + if note == n then 1 else 0
  {
  }

  lemma NewSessionStays(joinedAt: nat)
    ensures NewSession(joinedAt).leftAt.None?
  {
  }

  /** A session that joined with the last note of the log. */
  lemma NewSessionOk(i: nat, log: seq<Note>)
    requires log != [] && log[|log| - 1] == Newcomer && Count(log, Newcomer) == i + 1
    ensures SessionOk(NewSession(|log|), i, log)
  {
    assert log[..|log|] == log;
    assert log[|log|..|log|] == [];
  }

  lemma AcceptKeeps(c: State)
    requires Inv(c)
    ensures Inv(AcceptStep(c))
  {
    hide SessionOk, Count, NewSession, Notices, SameLefts;
    var c' := AcceptStep(c);
    CountAppend(c.log, Newcomer, Newcomer);
    CountAppend(c.log, Newcomer, OneLess);
    NewSessionOk(|c.sessions|, c'.log);
    AcceptPlaces(c);
    forall k | 0 <= k < |c.sessions|
      ensures SessionOk(c'.sessions[k], k, c'.log)
    {
      PostKeeps(c, Newcomer, k);
    }
    assert |c.sessions| !in c.clients;
    PostLefts(c, Newcomer);
    NoticesKept(c.sessions, Post(c, Newcomer).sessions, c.log, [Newcomer]);
    NewSessionStays(|c'.log|);
    NoticesJoin(Post(c, Newcomer).sessions, NewSession(|c'.log|), c'.log);
  }

  /** Who is a client after an accept. */
  lemma AcceptPlaces(c: State)
    requires Inv(c)
    ensures var c' := AcceptStep(c);
            forall i :: i in c'.clients <==> 0 <= i < |c'.sessions| && c'.sessions[i].leftAt.None?
  {
    hide SessionOk, Count, Notices, Post, NewSession;
    PostLefts(c, Newcomer);
    NewSessionStays(|AcceptStep(c).log|);
  }

  lemma SaidKeeps(c: State, i: nat, text: string)
    requires Inv(c)
    ensures Inv(Post(c, Said(i, text)))
  {
    hide SessionOk, Count, Notices, SameLefts;
    var c' := Post(c, Said(i, text));
    PostLefts(c, Said(i, text));
    NoticesKept(c.sessions, c'.sessions, c.log, [Said(i, text)]);
    CountAppend(c.log, Said(i, text), Newcomer);
    CountAppend(c.log, Said(i, text), OneLess);
    forall k | 0 <= k < |c'.sessions|
      ensures SessionOk(c'.sessions[k], k, c'.log)
    {
      PostKeeps(c, Said(i, text), k);
    }
  }

  /** The state when the on-error lambda runs: session `i` may be closed but not yet erased. */
  ghost predicate FailingInv(c: State, i: nat) {
    && i < |c.sessions|
    && Notices(c.sessions, c.log)
    && (forall k :: 0 <= k < |c.sessions| && k != i ==> SessionOk(c.sessions[k], k, c.log))
    && SessionOk(c.sessions[i].(leftAt := if i in c.clients then Some(|c.log|) else c.sessions[i].leftAt), i,
                 if i in c.clients then c.log + [OneLess] else c.log)
    && (forall k :: k in c.clients <==> 0 <= k < |c.sessions| && c.sessions[k].leftAt.None?)
    && Count(c.log, Newcomer) == |c.sessions|
    && |c.clients| + Count(c.log, OneLess) == |c.sessions|
  }

  lemma ErrorKeeps(c: State, i: nat)
    requires FailingInv(c, i)
    ensures Inv(OnError(c, i))
  {
    hide SessionOk, Count, Notices;
    if i in c.clients {
      var gone := c.(sessions := c.sessions[i := c.sessions[i].(leftAt := Some(|c.log|))], clients := c.clients - {i});
      var c' := OnError(c, i);
      CountAppend(c.log, OneLess, Newcomer);
      CountAppend(c.log, OneLess, OneLess);
      forall k | 0 <= k < |c'.sessions|
        ensures SessionOk(c'.sessions[k], k, c'.log)
      {
        if k != i {
          PostKeeps(gone, OneLess, k);
        }
      }
      PostLefts(gone, OneLess);
      NoticesLeave(c.sessions, c'.sessions, i, c.log);
    }
  }

  /** Closing a session, and giving up one of its operations, leaves its stream as it is. */
  lemma CloseKeeps(c: State, i: nat, closed: Session)
    requires Inv(c) && i < |c.sessions|
    requires closed == c.sessions[i].(reading := closed.reading, writing := closed.writing, open := false)
    requires closed.writing ==> c.sessions[i].writing
    ensures FailingInv(c.(sessions := c.sessions[i := closed]), i)
  {
    hide SessionOk, Notices, Count;
    NoticesKept(c.sessions, c.sessions[i := closed], c.log, []);
    assert c.log + [] == c.log;
    ClosedOk(c.sessions[i], closed, i, c.log);
  }

  /** Closing a session leaves its stream as it is, and so does leaving after it. */
  lemma ClosedOk(s: Session, closed: Session, i: nat, log: seq<Note>)
    requires SessionOk(s, i, log)
    requires closed == s.(reading := closed.reading, writing := closed.writing, open := false)
    requires closed.writing ==> s.writing
    ensures s.leftAt.None? ==> SessionOk(closed.(leftAt := Some(|log|)), i, log + [OneLess])
    ensures s.leftAt.Some? ==> SessionOk(closed, i, log)
  {
    if s.leftAt.None? {
      LeavingKeeps(s, i, log);
    }
  }

  lemma WrittenKeeps(s: Session, i: nat, log: seq<Note>)
    requires SessionOk(s, i, log) && s.writing
    ensures SessionOk(Written(s), i, log)
  {
    assert s.queue == [s.queue[0]] + s.queue[1..];
    assert s.sent + [s.queue[0]] + s.queue[1..] == s.sent + s.queue;
  }

  lemma WriteOkKeeps(c: State, i: nat)
    requires Inv(c) && Enabled(c, WriteOk(i))
    ensures Inv(Step(c, WriteOk(i)))
  {
    hide SessionOk, Notices, Count;
    WrittenKeeps(c.sessions[i], i, c.log);
    NoticesKept(c.sessions, Step(c, WriteOk(i)).sessions, c.log, []);
    assert c.log + [] == c.log;
  }

  lemma InvStep(c: State, e: Event)
    requires Inv(c) && Enabled(c, e)
    ensures Inv(Step(c, e))
  {
    hide Inv, FailingInv, Post, AcceptStep, OnError;
    match e
    case Accept => AcceptKeeps(c);
    case ReadOk(i, text) => SaidKeeps(c, i, text);
    case ReadFailed(i) =>
      var closed := c.sessions[i].(reading := false, open := false);
      CloseKeeps(c, i, closed);
      ErrorKeeps(c.(sessions := c.sessions[i := closed]), i);
    case WriteOk(i) => WriteOkKeeps(c, i);
    case WriteFailed(i) =>
      var closed := c.sessions[i].(writing := false, open := false);
      CloseKeeps(c, i, closed);
      ErrorKeeps(c.(sessions := c.sessions[i := closed]), i);
  }

  lemma {:induction false} InvRun(c: State, es: seq<Event>)
    requires Inv(c) && CanRun(c, es)
    ensures Inv(Run(c, es))
    decreases |es|
  {
    if es != [] {
      InvStep(c, es[0]);
      InvRun(Step(c, es[0]), es[1..]);
    }
  }

  // ---------------------------------------------------------------- results over whole runs

  /**
   * Refinement: in every state of every run, what has been written to session `i` followed by what
   * is queued for it is the welcome followed by the global log from just after newcomer notice
   * number `i`, its own, up to just before its own leave notice, or to the end while it is a client.
   */
  lemma StreamsAreLogPieces(es: seq<Event>, i: nat)
    requires CanRun(EMPTY, es) && i < |Run(EMPTY, es).sessions|
    ensures var c := Run(EMPTY, es);
            var s := c.sessions[i];
            var end := LeavesAt(s, c.log);
            && 0 < s.joinedAt <= end <= |c.log|
            && s.sent + s.queue == [Welcome] + c.log[s.joinedAt..end]
            && c.log[s.joinedAt - 1] == Newcomer && Count(c.log[..s.joinedAt], Newcomer) == i + 1
            && (s.leftAt.Some? ==> end < |c.log| && c.log[end] == OneLess)
            && (s.leftAt.Some? ==> forall j :: 0 <= j < |c.sessions| && j != i ==> c.sessions[j].leftAt != s.leftAt)
            && (i in c.clients <==> s.leftAt.None?)
  {
    InvEmpty();
    hide Run, CanRun;
    InvRun(EMPTY, es);
    assert SessionOk(Run(EMPTY, es).sessions[i], i, Run(EMPTY, es).log);
  }

  lemma InvEmpty()
    ensures Inv(EMPTY)
  {
  }

  /**
   * Departure notices and departed sessions correspond one to one, over every run: a place of the
   * log holds a departure notice if and only if some session left there, and then only one did.
   */
  lemma DepartureNotices(es: seq<Event>, k: nat)
    requires CanRun(EMPTY, es) && k < |Run(EMPTY, es).log|
    ensures var c := Run(EMPTY, es);
            && (c.log[k] == OneLess <==> exists i :: 0 <= i < |c.sessions| && c.sessions[i].leftAt == Some(k))
            && forall i, j :: 0 <= i < j < |c.sessions| && c.sessions[i].leftAt == Some(k) ==> c.sessions[j].leftAt != Some(k)
  {
    InvEmpty();
    hide Run, CanRun, Count, StreamOk, WriteOkay;
    InvRun(EMPTY, es);
    var c := Run(EMPTY, es);
    if c.log[k] == OneLess {
      assert HasLeft(c.sessions, k);
    }
    forall i | 0 <= i < |c.sessions| && c.sessions[i].leftAt == Some(k)
      ensures c.log[k] == OneLess
    {
      assert SessionOk(c.sessions[i], i, c.log);
    }
  }

  /** Any two sessions agree: what both were meant to see stands in both streams, in log order. */
  lemma ClientsAgree(es: seq<Event>, i: nat, j: nat, k: nat)
    requires CanRun(EMPTY, es) && i < |Run(EMPTY, es).sessions| && j < |Run(EMPTY, es).sessions|
    requires var c := Run(EMPTY, es);
             && c.sessions[i].joinedAt <= k < LeavesAt(c.sessions[i], c.log)
             && c.sessions[j].joinedAt <= k < LeavesAt(c.sessions[j], c.log)
    ensures var c := Run(EMPTY, es);
            var a, b := c.sessions[i].sent + c.sessions[i].queue, c.sessions[j].sent + c.sessions[j].queue;
            var x, y := 1 + k - c.sessions[i].joinedAt, 1 + k - c.sessions[j].joinedAt;
            x < |a| && y < |b| && k < |c.log| && a[x] == b[y] == c.log[k]
  {
    StreamsAreLogPieces(es, i);
    StreamsAreLogPieces(es, j);
    hide Run, CanRun, Count;
    var c := Run(EMPTY, es);
    PlaceInStream(c.sessions[i].sent + c.sessions[i].queue, c.log, c.sessions[i].joinedAt, LeavesAt(c.sessions[i], c.log), k);
    PlaceInStream(c.sessions[j].sent + c.sessions[j].queue, c.log, c.sessions[j].joinedAt, LeavesAt(c.sessions[j], c.log), k);
  }

  lemma PlaceInStream(stream: seq<Note>, log: seq<Note>, from: nat, to: nat, k: nat)
    requires from <= k < to <= |log| && stream == [Welcome] + log[from..to]
    ensures 1 + k - from < |stream| && stream[1 + k - from] == log[k]
  {
  }

  /**
   * Departures are told exactly once: over every run the clients are the joins less the departure
   * notices; a client is open and reading, has a write in flight exactly while its queue is
   * non-empty, and no session ever has two writes outstanding or pops an empty queue.
   */
  lemma DeparturesOnce(es: seq<Event>, i: nat)
    requires CanRun(EMPTY, es)
    ensures var c := Run(EMPTY, es);
            && |c.clients| == Count(c.log, Newcomer) - Count(c.log, OneLess)
            && |c.sessions| == Count(c.log, Newcomer)
            && (i < |c.sessions| ==> !c.sessions[i].fault)
            && (i in c.clients ==> i < |c.sessions| && c.sessions[i].open && c.sessions[i].reading
                                   && (c.sessions[i].writing <==> c.sessions[i].queue != []))
  {
    InvEmpty();
    hide Run, CanRun, Count, Notices;
    InvRun(EMPTY, es);
    if i < |Run(EMPTY, es).sessions| {
      assert SessionOk(Run(EMPTY, es).sessions[i], i, Run(EMPTY, es).log);
    }
  }

  /** Once gone, always gone: no later event brings a session back or tells its departure again. */
  lemma {:induction false} LeftForGood(c: State, es: seq<Event>, i: nat)
    requires Inv(c) && CanRun(c, es) && i < |c.sessions| && i !in c.clients
    ensures i < |Run(c, es).sessions| && i !in Run(c, es).clients
    ensures Run(c, es).sessions[i].leftAt == c.sessions[i].leftAt
    decreases |es|
  {
    if es != [] {
      InvStep(c, es[0]);
      LeftStep(c, es[0], i);
      hide Step, Enabled, Inv;
      LeftForGood(Step(c, es[0]), es[1..], i);
    }
  }

  lemma LeftStep(c: State, e: Event, i: nat)
    requires Inv(c) && Enabled(c, e) && i < |c.sessions| && i !in c.clients
    ensures var c' := Step(c, e);
            i < |c'.sessions| && i !in c'.clients && c'.sessions[i].leftAt == c.sessions[i].leftAt
  {
    hide SessionOk, Count, Notices, Post, OnError;
    match e
    case Accept => PostLefts(c, Newcomer);
    case ReadOk(k, text) => PostLefts(c, Said(k, text));
    case ReadFailed(k) => LeftOnError(c.(sessions := c.sessions[k := c.sessions[k].(reading := false, open := false)]), k, i);
    case WriteOk(k) =>
    case WriteFailed(k) => LeftOnError(c.(sessions := c.sessions[k := c.sessions[k].(writing := false, open := false)]), k, i);
  }

  /** The on-error lambda of a session concerns no session that has left. */
  lemma LeftOnError(c: State, k: nat, i: nat)
    requires k < |c.sessions| && i < |c.sessions| && i !in c.clients
    ensures var c' := OnError(c, k);
            |c'.sessions| == |c.sessions| && i !in c'.clients && c'.sessions[i].leftAt == c.sessions[i].leftAt
  {
    hide Post;
    if k in c.clients {
      PostLefts(c.(sessions := c.sessions[k := c.sessions[k].(leftAt := Some(|c.log|))], clients := c.clients - {k}), OneLess);
    }
  }

  // ---------------------------------------------------------------- the log, from the events alone

  predicate Failed(es: seq<Event>, i: nat) {
    ReadFailed(i) in es || WriteFailed(i) in es
  }

  /** A session's first failure is told to the others, a later one is not. */
  function Departure(earlier: seq<Event>, i: nat): seq<Note> {
    if Failed(earlier, i) then [] else [OneLess]
  }

  /** What an event after the events `earlier` tells everybody. */
  function Told(earlier: seq<Event>, e: Event): seq<Note> {
    match e
    case Accept => [Newcomer]
    case ReadOk(i, text) => [Said(i, text)]
    case ReadFailed(i) => Departure(earlier, i)
    case WriteFailed(i) => Departure(earlier, i)
    case WriteOk(_) => []
  }

  /** The broadcasts that the events of a run call for. */
  function LogOf(es: seq<Event>): seq<Note> {
    if es == [] then []
    else
      var last := |es| - 1;
      LogOf(es[..last]) + Told(es[..last], es[last])
  }

  /** The lines read, and the lines in a log. */
  function Lines(es: seq<Event>): seq<Note> {
    if es == [] then []
    else
      var last := |es| - 1;
      Lines(es[..last]) + if es[last].ReadOk? then [Said(es[last].i, es[last].text)] else []
  }

  function Spoken(log: seq<Note>): seq<Note> {
    if log == [] then []
    else
      var last := |log| - 1;
      Spoken(log[..last]) + if log[last].Said? then [log[last]] else []
  }

  /** How many sessions were accepted, and how often a write of session `i` completed. */
  function Accepted(es: seq<Event>): nat {
    multiset(es)[Accept]
  }

  function Writings(es: seq<Event>, i: nat): nat {
    multiset(es)[WriteOk(i)]
  }

  /** What the events say of session `i`: whether it is a client, and what is outstanding. */
  ghost predicate ByEvents(s: Session, es: seq<Event>, i: nat) {
    && (s.leftAt.None? <==> !Failed(es, i))
    && (s.open <==> !Failed(es, i))
    && (s.reading <==> ReadFailed(i) !in es)
    && (s.writing <==> s.queue != [] && WriteFailed(i) !in es)
    && |s.sent| == Writings(es, i)
  }

  /** No event concerns session `i`. */
  ghost predicate NoneOf(es: seq<Event>, i: nat) {
    !Failed(es, i) && Writings(es, i) == 0
  }

  /** One event more, as far as session `i` is concerned. */
  lemma OneMore(es: seq<Event>, e: Event, i: nat)
    ensures Accepted(es + [e]) == Accepted(es) + if e.Accept? then 1 else 0
    ensures Writings(es + [e], i) == Writings(es, i) + if e == WriteOk(i) then 1 else 0
    ensures WriteFailed(i) in es + [e] <==> WriteFailed(i) in es || e == WriteFailed(i)
    ensures ReadFailed(i) in es + [e] <==> ReadFailed(i) in es || e == ReadFailed(i)
  {
    assert multiset(es + [e]) == multiset(es) + multiset{e};
  }

  lemma ToldNext(es: seq<Event>, e: Event)
    ensures LogOf(es + [e]) == LogOf(es) + Told(es, e)
  {
    assert (es + [e])[..|es|] == es;
  }

  lemma Unconcerned(s: Session, es: seq<Event>, e: Event, i: nat)
    requires ByEvents(s, es, i) && e != ReadFailed(i) && e != WriteFailed(i) && e != WriteOk(i)
    ensures ByEvents(s, es + [e], i)
  {
    OneMore(es, e, i);
  }

  lemma EnqueueFollows(s: Session, note: Note, es: seq<Event>, i: nat)
    requires ByEvents(s, es, i) && s.leftAt.None?
    ensures ByEvents(Enqueue(s, note), es, i)
  {
  }

  lemma PostFollows(c: State, note: Note, es: seq<Event>, e: Event, k: nat)
    requires k < |c.sessions| && (k in c.clients <==> c.sessions[k].leftAt.None?) && ByEvents(c.sessions[k], es, k)
    requires e != ReadFailed(k) && e != WriteFailed(k) && e != WriteOk(k)
    ensures ByEvents(Post(c, note).sessions[k], es + [e], k)
  {
    if k in c.clients {
      EnqueueFollows(c.sessions[k], note, es, k);
    }
    hide ByEvents, Enqueue;
    Unconcerned(Post(c, note).sessions[k], es, e, k);
  }

  lemma NoneOfMore(es: seq<Event>, e: Event, i: nat)
    requires NoneOf(es, i) && e != ReadFailed(i) && e != WriteFailed(i) && e != WriteOk(i)
    ensures NoneOf(es + [e], i)
  {
    OneMore(es, e, i);
  }

  lemma NewFollows(es: seq<Event>, i: nat, joinedAt: nat)
    requires NoneOf(es, i)
    ensures ByEvents(NewSession(joinedAt), es + [Accept], i)
  {
    OneMore(es, Accept, i);
  }

  /** The sessions are as the events say; there are no others. */
  ghost predicate AllFollow(sessions: seq<Session>, es: seq<Event>) {
    && |sessions| == Accepted(es)
    && (forall i :: i >= |sessions| ==> NoneOf(es, i))
    && (forall i :: 0 <= i < |sessions| ==> ByEvents(sessions[i], es, i))
  }

  lemma AllFollowNext(a: seq<Session>, b: seq<Session>, es: seq<Event>, e: Event)
    requires AllFollow(a, es) && |b| == |a| + if e.Accept? then 1 else 0
    requires forall k :: 0 <= k < |b| ==> ByEvents(b[k], es + [e], k)
    requires forall k :: k >= |a| ==> e != ReadFailed(k) && e != WriteFailed(k) && e != WriteOk(k)
    ensures AllFollow(b, es + [e])
  {
    hide ByEvents, NoneOf;
    OneMore(es, e, 0);
    hide Accepted;
    forall k | k >= |b|
      ensures NoneOf(es + [e], k)
    {
      NoneOfMore(es, e, k);
    }
  }

  /** Who is a client, in every state of a run. */
  lemma WhoIsClient(c: State)
    requires Inv(c)
    ensures forall k :: 0 <= k < |c.sessions| ==> (k in c.clients <==> c.sessions[k].leftAt.None?)
  {
    hide SessionOk, Notices, Count;
  }

  lemma AllPostFollow(c: State, note: Note, es: seq<Event>, e: Event)
    requires Inv(c) && AllFollow(c.sessions, es) && (e.Accept? || e.ReadOk?)
    ensures forall k :: 0 <= k < |c.sessions| ==> ByEvents(Post(c, note).sessions[k], es + [e], k)
  {
    WhoIsClient(c);
    hide Inv, ByEvents, NoneOf, Accepted, Post;
    forall k | 0 <= k < |c.sessions|
      ensures ByEvents(Post(c, note).sessions[k], es + [e], k)
    {
      PostFollows(c, note, es, e, k);
    }
  }

  lemma AcceptFollows(c: State, es: seq<Event>)
    requires Inv(c) && AllFollow(c.sessions, es)
    ensures AllFollow(AcceptStep(c).sessions, es + [Accept])
  {
    hide Inv, NewSession, ByEvents, NoneOf, Accepted, Post;
    AllPostFollow(c, Newcomer, es, Accept);
    NewFollows(es, |c.sessions|, |AcceptStep(c).log|);
    AllFollowNext(c.sessions, AcceptStep(c).sessions, es, Accept);
  }

  lemma SaidFollows(c: State, es: seq<Event>, i: nat, text: string)
    requires Inv(c) && AllFollow(c.sessions, es)
    ensures AllFollow(Post(c, Said(i, text)).sessions, es + [ReadOk(i, text)])
  {
    hide Inv, ByEvents, NoneOf, Accepted, Post;
    AllPostFollow(c, Said(i, text), es, ReadOk(i, text));
    AllFollowNext(c.sessions, Post(c, Said(i, text)).sessions, es, ReadOk(i, text));
  }

  /** The session that failed, before the on-error lambda has run. */
  function Fallen(s: Session, e: Event): Session {
    if e.ReadFailed? then s.(reading := false, open := false) else s.(writing := false, open := false)
  }

  lemma FallenFollows(s: Session, es: seq<Event>, e: Event, i: nat, leftAt: Option<nat>)
    requires ByEvents(s, es, i) && (e == ReadFailed(i) || e == WriteFailed(i)) && leftAt.Some?
    ensures ByEvents(Fallen(s, e).(leftAt := leftAt), es + [e], i)
  {
    OneMore(es, e, i);
  }

  /** The others, when session `i` has left. */
  lemma OthersFollow(gone: State, es: seq<Event>, e: Event, i: nat, k: nat)
    requires k < |gone.sessions| && k != i && (e == ReadFailed(i) || e == WriteFailed(i))
    requires (k in gone.clients <==> gone.sessions[k].leftAt.None?) && ByEvents(gone.sessions[k], es, k)
    ensures ByEvents(gone.sessions[k], es + [e], k) && ByEvents(Post(gone, OneLess).sessions[k], es + [e], k)
  {
    hide ByEvents, Post;
    Unconcerned(gone.sessions[k], es, e, k);
    PostFollows(gone, OneLess, es, e, k);
  }

  /** The state after the on-error lambda, but for the notice to the others. */
  function Gone(c: State, e: Event, i: nat): State
    requires i < |c.sessions|
  {
    var leftAt: Option<nat> := if i in c.clients then Some(|c.log|) else c.sessions[i].leftAt;
    c.(sessions := c.sessions[i := Fallen(c.sessions[i], e).(leftAt := leftAt)], clients := c.clients - {i})
  }

  lemma GoneThenTold(c: State, e: Event, i: nat)
    requires i < |c.sessions|
    ensures var gone := Gone(c, e, i);
            var sessions := OnError(c.(sessions := c.sessions[i := Fallen(c.sessions[i], e)]), i).sessions;
            && sessions == (if i in c.clients then Post(gone, OneLess).sessions else gone.sessions)
            && sessions[i] == gone.sessions[i] && |sessions| == |c.sessions|
            && forall k :: 0 <= k < |c.sessions| && k != i ==> gone.sessions[k] == c.sessions[k]
  {
    hide Enqueue;
    var fallen, gone := c.(sessions := c.sessions[i := Fallen(c.sessions[i], e)]), Gone(c, e, i);
    if i in c.clients {
      assert fallen.sessions[i := fallen.sessions[i].(leftAt := Some(|c.log|))] == gone.sessions;
    } else {
      assert fallen.sessions == gone.sessions;
    }
  }

  lemma FailureFollows(c: State, es: seq<Event>, e: Event, i: nat)
    requires Inv(c) && AllFollow(c.sessions, es) && i < |c.sessions| && (e == ReadFailed(i) || e == WriteFailed(i))
    ensures AllFollow(OnError(c.(sessions := c.sessions[i := Fallen(c.sessions[i], e)]), i).sessions, es + [e])
  {
    hide Inv, ByEvents, NoneOf, Accepted, Post, OnError, Fallen;
    var gone := Gone(c, e, i);
    var sessions := OnError(c.(sessions := c.sessions[i := Fallen(c.sessions[i], e)]), i).sessions;
    WhoIsClient(c);
    FallenFollows(c.sessions[i], es, e, i, gone.sessions[i].leftAt);
    GoneThenTold(c, e, i);
    forall k | 0 <= k < |sessions| && k != i
      ensures ByEvents(sessions[k], es + [e], k)
    {
      OthersFollow(gone, es, e, i, k);
    }
    AllFollowNext(c.sessions, sessions, es, e);
  }

  lemma WrittenFollows(s: Session, es: seq<Event>, i: nat)
    requires ByEvents(s, es, i) && s.writing
    ensures ByEvents(Written(s), es + [WriteOk(i)], i)
  {
    OneMore(es, WriteOk(i), i);
  }

  lemma WriteOkFollows(sessions: seq<Session>, es: seq<Event>, i: nat)
    requires AllFollow(sessions, es) && i < |sessions| && sessions[i].writing
    ensures AllFollow(sessions[i := Written(sessions[i])], es + [WriteOk(i)])
  {
    var e := WriteOk(i);
    WrittenFollows(sessions[i], es, i);
    hide ByEvents, NoneOf, Written, Accepted;
    var written := sessions[i := Written(sessions[i])];
    forall k | 0 <= k < |sessions| && k != i
      ensures ByEvents(written[k], es + [e], k)
    {
      Unconcerned(sessions[k], es, e, k);
    }
    AllFollowNext(sessions, written, es, e);
  }

  lemma FollowsStep(c: State, es: seq<Event>, e: Event)
    requires Inv(c) && AllFollow(c.sessions, es) && Enabled(c, e)
    ensures AllFollow(Step(c, e).sessions, es + [e])
  {
    hide Inv, AllFollow, Post, AcceptStep, OnError;
    match e
    case Accept => AcceptFollows(c, es);
    case ReadOk(i, text) => SaidFollows(c, es, i, text);
    case ReadFailed(i) => FailureFollows(c, es, e, i);
    case WriteOk(i) => WriteOkFollows(c.sessions, es, i);
    case WriteFailed(i) => FailureFollows(c, es, e, i);
  }

  /** A step tells the others what its event calls for. */
  lemma StepTells(c: State, es: seq<Event>, e: Event)
    requires Inv(c) && AllFollow(c.sessions, es) && Enabled(c, e)
    ensures Step(c, e).log == c.log + Told(es, e)
  {
    WhoIsClient(c);
    hide Inv, Accepted, NoneOf, Enqueue;
    if e.ReadFailed? || e.WriteFailed? {
      assert ByEvents(c.sessions[e.i], es, e.i);
    }
    assert c.log + [] == c.log;
  }

  /** The state is what the events call for. */
  ghost predicate Follows(c: State, es: seq<Event>) {
    Inv(c) && AllFollow(c.sessions, es) && c.log == LogOf(es)
  }

  lemma FollowsNext(c: State, es: seq<Event>, e: Event)
    requires Follows(c, es) && Enabled(c, e)
    ensures Follows(Step(c, e), es + [e])
  {
    hide Inv, AllFollow, Step, Enabled, LogOf, Told;
    InvStep(c, e);
    FollowsStep(c, es, e);
    StepTells(c, es, e);
    ToldNext(es, e);
  }

  /** The events `es` after `earlier` ones. */
  lemma {:induction false} FollowsRun(c: State, earlier: seq<Event>, es: seq<Event>)
    requires Follows(c, earlier) && CanRun(c, es)
    ensures Follows(Run(c, es), earlier + es)
    decreases |es|
  {
    hide Follows, Step, Enabled;
    OneByOne(earlier, es);
    if es != [] {
      FollowsNext(c, earlier, es[0]);
      FollowsRun(Step(c, es[0]), earlier + [es[0]], es[1..]);
    }
  }

  lemma {:induction false} LinesOfLog(es: seq<Event>)
    ensures Spoken(LogOf(es)) == Lines(es)
  {
    if es != [] {
      var last := |es| - 1;
      LinesOfLog(es[..last]);
      SpokenMore(LogOf(es[..last]), Told(es[..last], es[last]));
    }
  }

  lemma SpokenMore(log: seq<Note>, more: seq<Note>)
    requires |more| <= 1
    ensures Spoken(log + more) == Spoken(log) + if more != [] && more[0].Said? then more else []
  {
    if more == [] {
      assert log + more == log;
    } else {
      assert (log + more)[..|log|] == log;
    }
  }

  /**
   * The server does what the events call for, over every run: the log holds, in order, a newcomer
   * notice for every accept, every line that was read, and a departure notice for the first failure
   * of every session, and nothing else; and a session is a client, open, reading and writing
   * exactly as far as nothing of it has failed.
   */
  lemma RunFollowsEvents(es: seq<Event>)
    requires CanRun(EMPTY, es)
    ensures var c := Run(EMPTY, es);
            && c.log == LogOf(es) && Spoken(c.log) == Lines(es)
            && |c.sessions| == Accepted(es)
            && (forall i :: 0 <= i < |c.sessions| ==> (i in c.clients <==> !Failed(es, i)))
            && (forall i :: 0 <= i < |c.sessions| ==> ByEvents(c.sessions[i], es, i))
  {
    NothingYet();
    LinesOfLog(es);
    hide Run, CanRun, Inv, Follows, AllFollow, Spoken, Lines, LogOf;
    FollowsRun(EMPTY, [], es);
    NothingFirst(es);
    FollowsNow(Run(EMPTY, es), es);
  }

  lemma NothingYet()
    ensures Follows(EMPTY, [])
  {
  }

  lemma FollowsNow(c: State, es: seq<Event>)
    requires Follows(c, es)
    ensures c.log == LogOf(es) && |c.sessions| == Accepted(es)
    ensures forall i :: 0 <= i < |c.sessions| ==> (i in c.clients <==> !Failed(es, i))
    ensures forall i :: 0 <= i < |c.sessions| ==> ByEvents(c.sessions[i], es, i)
  {
    WhoIsClient(c);
    hide Inv, Accepted, NoneOf, Failed, LogOf;
    forall i | 0 <= i < |c.sessions|
      ensures i in c.clients <==> !Failed(es, i)
    {
      assert ByEvents(c.sessions[i], es, i);
    }
  }

  /** A client stays where it joined, and if it leaves, it leaves behind what is told now. */
  lemma ClientLater(c: State, e: Event, j: nat)
    requires Inv(c) && Enabled(c, e) && j < |c.sessions|
    ensures var c' := Step(c, e);
            && j < |c'.sessions| && c'.sessions[j].joinedAt == c.sessions[j].joinedAt && c.log <= c'.log
            && LeavesAt(c.sessions[j], c.log) <= LeavesAt(c'.sessions[j], c'.log)
  {
    hide Inv, Post, OnError;
    WhoIsClient(c);
    match e
    case Accept => PostPlaces(c, Newcomer, j);
    case ReadOk(i, text) => PostPlaces(c, Said(i, text), j);
    case ReadFailed(i) => ErrorPlaces(c, c.sessions[i].(reading := false, open := false), i, j);
    case WriteOk(i) =>
    case WriteFailed(i) => ErrorPlaces(c, c.sessions[i].(writing := false, open := false), i, j);
  }

  lemma PostPlaces(c: State, note: Note, j: nat)
    requires j < |c.sessions|
    ensures var s, s' := c.sessions[j], Post(c, note).sessions[j]; s'.joinedAt == s.joinedAt && s'.leftAt == s.leftAt
    ensures Post(c, note).log == c.log + [note]
  {
  }

  lemma ErrorPlaces(c: State, fallen: Session, i: nat, j: nat)
    requires i < |c.sessions| && j < |c.sessions| && (i in c.clients <==> c.sessions[i].leftAt.None?)
    requires fallen == c.sessions[i].(reading := fallen.reading, writing := fallen.writing, open := false)
    ensures var c' := OnError(c.(sessions := c.sessions[i := fallen]), i);
            && c'.sessions[j].joinedAt == c.sessions[j].joinedAt && c.log <= c'.log && |c'.sessions| == |c.sessions|
            && LeavesAt(c.sessions[j], c.log) <= LeavesAt(c'.sessions[j], c'.log)
  {
    hide Post;
    if i in c.clients {
      var gone := c.sessions[i := fallen][i := fallen.(leftAt := Some(|c.log|))];
      PostPlaces(c.(sessions := gone, clients := c.clients - {i}), OneLess, j);
    }
  }

  lemma {:induction false} StaysInPlace(c: State, es: seq<Event>, j: nat)
    requires Inv(c) && CanRun(c, es) && j < |c.sessions|
    ensures var c' := Run(c, es);
            && j < |c'.sessions| && c'.sessions[j].joinedAt == c.sessions[j].joinedAt && c.log <= c'.log
            && LeavesAt(c.sessions[j], c.log) <= LeavesAt(c'.sessions[j], c'.log)
    decreases |es|
  {
    if es != [] {
      InvStep(c, es[0]);
      ClientLater(c, es[0], j);
      hide Inv, Step, Enabled, LeavesAt;
      StaysInPlace(Step(c, es[0]), es[1..], j);
    }
  }

  lemma {:induction false} RunSplit(c: State, es: seq<Event>, fs: seq<Event>)
    requires CanRun(c, es + fs)
    ensures CanRun(c, es) && CanRun(Run(c, es), fs) && Run(c, es + fs) == Run(Run(c, es), fs)
    decreases |es|
  {
    hide Step, Enabled;
    if es == [] {
      assert es + fs == fs;
    } else {
      assert (es + fs)[0] == es[0] && (es + fs)[1..] == es[1..] + fs;
      RunSplit(Step(c, es[0]), es[1..], fs);
    }
  }

  /**
   * Every line reaches every client: a line read after the events `earlier` stands, at the place
   * the log gives it, in the stream of every session that had been accepted and had not failed by
   * then, its own sender included, whatever happens later.
   */
  lemma LineReachesClients(earlier: seq<Event>, i: nat, text: string, later: seq<Event>, j: nat)
    requires CanRun(EMPTY, earlier + ([ReadOk(i, text)] + later))
    requires j < Accepted(earlier) && !Failed(earlier, j)
    ensures var c := Run(EMPTY, earlier + ([ReadOk(i, text)] + later));
            && j < |c.sessions| && c.sessions[j].joinedAt <= |LogOf(earlier)|
            && var stream := c.sessions[j].sent + c.sessions[j].queue;
               var place := 1 + |LogOf(earlier)| - c.sessions[j].joinedAt;
               place < |stream| && stream[place] == Said(i, text)
  {
    var c := LineIsRead(earlier, i, text, later, j);
    var es := earlier + ([ReadOk(i, text)] + later);
    StreamsAreLogPieces(es, j);
    hide Run, CanRun, Count, LogOf;
    PlaceInStream(c.sessions[j].sent + c.sessions[j].queue, c.log, c.sessions[j].joinedAt,
                  LeavesAt(c.sessions[j], c.log), |LogOf(earlier)|);
  }

  lemma LineIsRead(earlier: seq<Event>, i: nat, text: string, later: seq<Event>, j: nat) returns (c: State)
    requires CanRun(EMPTY, earlier + ([ReadOk(i, text)] + later))
    requires j < Accepted(earlier) && !Failed(earlier, j)
    ensures c == Run(EMPTY, earlier + ([ReadOk(i, text)] + later)) && j < |c.sessions|
    ensures var k := |LogOf(earlier)|;
            k < |c.log| && c.log[k] == Said(i, text) && c.sessions[j].joinedAt <= k < LeavesAt(c.sessions[j], c.log)
  {
    var e := ReadOk(i, text);
    RunSplit(EMPTY, earlier, [e] + later);
    RunFollowsEvents(earlier);
    var c0 := Run(EMPTY, earlier);
    InvEmpty();
    InvRun(EMPTY, earlier);
    assert Enabled(c0, e) && CanRun(Step(c0, e), later) by {
      assert ([e] + later)[1..] == later;
    }
    c := Run(Step(c0, e), later);
    assert c == Run(c0, [e] + later) by {
      assert ([e] + later)[1..] == later;
    }
    hide Inv, Run, CanRun, Accepted, LogOf;
    SaidHere(c0, i, text, j);
    InvStep(c0, e);
    hide Step, Enabled;
    StaysInPlace(Step(c0, e), later, j);
  }

  /** The line is the next entry of the log, in the piece of every client. */
  lemma SaidHere(c: State, i: nat, text: string, j: nat)
    requires Inv(c) && Enabled(c, ReadOk(i, text)) && j in c.clients
    ensures var c' := Step(c, ReadOk(i, text));
            && j < |c'.sessions| && c'.sessions[j].joinedAt <= |c.log| < LeavesAt(c'.sessions[j], c'.log)
            && c'.log == c.log + [Said(i, text)]
  {
    hide Notices, Count;
    assert SessionOk(c.sessions[j], j, c.log);
  }

  // ---------------------------------------------------------------- a queue can be written out

  /** `n` completed writes of session `i`. */
  function Writes(i: nat, n: nat): seq<Event> {
    if n == 0 then [] else [WriteOk(i)] + Writes(i, n - 1)
  }

  /** While a write is in flight the queue is not empty. */
  lemma WriteReady(c: State, i: nat)
    requires Inv(c) && Enabled(c, WriteOk(i))
    ensures c.sessions[i].queue != [] && Step(c, WriteOk(i)) == c.(sessions := c.sessions[i := Written(c.sessions[i])])
  {
    assert SessionOk(c.sessions[i], i, c.log);
  }

  /** A client with something queued has a write in flight, and its completion shortens the queue by one. */
  lemma WriteStep(c: State, i: nat)
    requires Inv(c) && i in c.clients && c.sessions[i].queue != []
    ensures Enabled(c, WriteOk(i))
    ensures var c' := Step(c, WriteOk(i));
            && Inv(c') && c'.clients == c.clients && |c'.sessions| == |c.sessions| && c'.log == c.log
            && |c'.sessions[i].queue| == |c.sessions[i].queue| - 1
            && c'.sessions[i].joinedAt == c.sessions[i].joinedAt
  {
    hide Notices, Count, StreamOk;
    assert SessionOk(c.sessions[i], i, c.log);
    WriteOkKeeps(c, i);
  }

  /** With nothing queued everything has been written. */
  lemma NothingQueued(c: State, i: nat)
    requires Inv(c) && i in c.clients && c.sessions[i].queue == []
    ensures c.sessions[i].joinedAt <= |c.log|
    ensures c.sessions[i].sent == [Welcome] + c.log[c.sessions[i].joinedAt..]
  {
    hide Notices, Count, WriteOkay;
    assert SessionOk(c.sessions[i], i, c.log);
    assert c.sessions[i].sent + c.sessions[i].queue == c.sessions[i].sent;
    assert c.log[c.sessions[i].joinedAt..|c.log|] == c.log[c.sessions[i].joinedAt..];
  }

  /** A client's queue can always be written out: so many completions leave nothing pending. */
  lemma {:induction false} DrainSession(c: State, i: nat)
    requires Inv(c) && i in c.clients
    ensures i < |c.sessions| && c.sessions[i].joinedAt <= |c.log|
    ensures var es := Writes(i, |c.sessions[i].queue|);
            && CanRun(c, es) && |Run(c, es).sessions| == |c.sessions|
            && Run(c, es).sessions[i].queue == []
            && Run(c, es).sessions[i].sent == [Welcome] + c.log[c.sessions[i].joinedAt..]
    decreases |c.sessions[i].queue|
  {
    var n := |c.sessions[i].queue|;
    if n == 0 {
      NothingQueued(c, i);
    } else {
      WriteStep(c, i);
      hide Inv, Step, Enabled;
      var c' := Step(c, WriteOk(i));
      DrainSession(c', i);
      assert Writes(i, n)[0] == WriteOk(i) && Writes(i, n)[1..] == Writes(i, n - 1);
    }
  }

  // ---------------------------------------------------------------- sessions and server as objects

  class ClientSession {
    var queue: seq<Note>
    var writing: bool
    var reading: bool
    var open: bool
    ghost var sent: seq<Note>
    ghost var joinedAt: nat
    ghost var leftAt: Option<nat>

    ghost function Value(): Session
      reads this
    {
      Session(queue, sent, writing, reading, open, joinedAt, leftAt, false)
    }

    constructor ()
      ensures Value() == Session([], [], false, false, true, 0, None, false)
    {
      queue, writing, reading, open := [], false, false, true;
      sent, joinedAt, leftAt := [], 0, None;
    }

    /** `Session::post` */
    method PostNote(note: Note)
      requires queue == [] ==> !writing
      modifies this
      ensures Value() == Enqueue(old(Value()), note)
    {
      var idle := queue == [];
      queue := queue + [note];
      if idle {
        writing := true;
      }
    }

    /** The successful `Session::on_write`. */
    method OnWritten()
      requires queue != []
      modifies this
      ensures Value() == Written(old(Value()))
    {
      sent := sent + [queue[0]];
      queue := queue[1..];
      writing := queue != [];
    }
  }

  class ChatServer {
    var clients: set<ClientSession>
    /** Every session ever accepted, and every broadcast ever made. */
    ghost var sessions: seq<ClientSession>
    ghost var log: seq<Note>

    ghost predicate Shape()
      reads this
    {
      && (forall i, j :: 0 <= i < j < |sessions| ==> sessions[i] != sessions[j])
      && (forall c :: c in clients ==> c in sessions)
    }

    ghost function Values(): (values: seq<Session>)
      reads this, sessions
      ensures |values| == |sessions|
    {
      seq(|sessions|, i requires 0 <= i < |sessions| reads this, sessions => sessions[i].Value())
    }

    ghost function ClientIds(): set<nat>
      reads this
    {
      set i: nat | i < |sessions| && sessions[i] in clients
    }

    ghost function Now(): State
      reads this, sessions
    {
      State(Values(), ClientIds(), log)
    }

    ghost predicate Valid()
      reads this, sessions
    {
      Shape() && Inv(Now())
    }

    constructor ()
      ensures Valid() && Now() == EMPTY
    {
      clients, sessions, log := {}, [], [];
    }

    /** `Server::post` */
    method PostToAll(note: Note)
      requires Shape() && forall c :: c in clients && c.queue == [] ==> !c.writing
      modifies this`log, clients
      ensures Shape() && Now() == Post(old(Now()), note)
    {
      hide Enqueue, Post;
      ghost var before := Now();
      Deliver(note);
      log := log + [note];
      assert ClientIds() == before.clients;
      PostEach(before, note, Values());
    }

    /** The loop of `post`: the clients are visited in whatever order the set yields them. */
    method Deliver(note: Note)
      requires Shape() && forall c :: c in clients && c.queue == [] ==> !c.writing
      modifies clients
      ensures forall i :: 0 <= i < |sessions| ==>
                sessions[i].Value() == if sessions[i] in clients then Enqueue(old(Values()[i]), note) else old(Values()[i])
    {
      hide Enqueue, Post;
      ghost var before := Values();
      var todo := clients;
      while todo != {}
        invariant todo <= clients
        invariant forall c :: c in todo ==> c.Value() == old(c.Value())
        invariant forall i :: 0 <= i < |sessions| ==>
                    sessions[i].Value() == if sessions[i] in clients && sessions[i] !in todo
                                           then Enqueue(before[i], note) else before[i]
        decreases todo
      {
        var c :| c in todo;
        assert c.Value() == old(c.Value());
        c.PostNote(note);
        todo := todo - {c};
      }
    }

    /** A client's queue may be empty only while no write is in flight. */
    lemma ReadyToPost()
      requires Valid()
      ensures forall c :: c in clients && c.queue == [] ==> !c.writing
    {
      forall c | c in clients && c.queue == []
        ensures !c.writing
      {
        var i :| 0 <= i < |sessions| && sessions[i] == c;
        assert SessionOk(Now().sessions[i], i, log);
      }
    }

    /** The accept handler. */
    method AcceptClient() returns (client: ClientSession)
      requires Valid()
      modifies this, clients
      ensures Valid() && fresh(client) && Now() == Step(old(Now()), Accept)
    {
      ghost var before := Now();
      InvStep(before, Accept);
      ReadyToPost();
      hide Inv, Post, NewSession;
      client := Welcomed();
      assert Values() == before.sessions;
      PostToAll(Newcomer);
      Insert(client);
    }

    /** A new session with the welcome in its queue. */
    method Welcomed() returns (client: ClientSession)
      ensures fresh(client)
      ensures client.Value() == Enqueue(Session([], [], false, false, true, 0, None, false), Welcome)
    {
      client := new ClientSession();
      client.PostNote(Welcome);
    }

    /** Inserts a welcomed session and starts it. */
    method Insert(client: ClientSession)
      requires Shape() && client !in sessions && client.Value() == Enqueue(Session([], [], false, false, true, 0, None, false), Welcome)
      modifies this`clients, this`sessions, client
      ensures Shape() && log == old(log)
      ensures Now() == State(old(Values()) + [NewSession(|log|)], old(ClientIds()) + {|old(sessions)|}, log)
    {
      ghost var values, ids := Values(), ClientIds();
      client.joinedAt := |log|;
      client.reading := true;
      assert Values() == values;
      clients := clients + {client};
      sessions := sessions + [client];
      assert Values() == values + [client.Value()];
      assert ClientIds() == ids + {|values|};
    }

    /** Session number `i` has read a line: `on_msg_` is the server's `post`. */
    method OnLine(i: nat, text: string)
      requires Valid() && Enabled(Now(), ReadOk(i, text))
      modifies this`log, clients
      ensures Valid() && Now() == Step(old(Now()), ReadOk(i, text))
    {
      InvStep(Now(), ReadOk(i, text));
      ReadyToPost();
      PostToAll(Said(i, text));
    }

    /** The on-error lambda of session number `i`. */
    method OnErrorOf(client: ClientSession, ghost i: nat)
      requires Shape() && i < |sessions| && sessions[i] == client
      requires forall c :: c in clients && c != client && c.queue == [] ==> !c.writing
      modifies this`log, this`clients, client`leftAt, clients
      ensures Shape() && sessions == old(sessions) && Now() == OnError(old(Now()), i)
    {
      if client in clients {
        ghost var before := Now();
        clients := clients - {client};
        client.leftAt := Some(|log|);
        assert Values() == before.sessions[i := before.sessions[i].(leftAt := Some(|log|))];
        assert ClientIds() == before.clients - {i};
        PostToAll(OneLess);
      }
    }

    /** The failing `Session::on_read`. */
    method OnReadError(client: ClientSession, ghost i: nat)
      requires Valid() && i < |sessions| && sessions[i] == client && Enabled(Now(), ReadFailed(i))
      modifies this, client, clients
      ensures Valid() && Now() == Step(old(Now()), ReadFailed(i))
    {
      hide Inv, Post, SessionOk, OnError;
      InvStep(Now(), ReadFailed(i));
      ReadyToPost();
      ghost var before := Now();
      client.reading, client.open := false, false;
      assert Values() == before.sessions[i := before.sessions[i].(reading := false, open := false)];
      OnErrorOf(client, i);
    }

    /** The failing `Session::on_write`. */
    method OnWriteError(client: ClientSession, ghost i: nat)
      requires Valid() && i < |sessions| && sessions[i] == client && Enabled(Now(), WriteFailed(i))
      modifies this, client, clients
      ensures Valid() && Now() == Step(old(Now()), WriteFailed(i))
    {
      hide Inv, Post, SessionOk, OnError;
      InvStep(Now(), WriteFailed(i));
      ReadyToPost();
      ghost var before := Now();
      client.writing, client.open := false, false;
      assert Values() == before.sessions[i := before.sessions[i].(writing := false, open := false)];
      OnErrorOf(client, i);
    }

    /** The successful `Session::on_write`. */
    method OnWriteDone(client: ClientSession, ghost i: nat)
      requires Valid() && i < |sessions| && sessions[i] == client && Enabled(Now(), WriteOk(i))
      modifies client
      ensures Valid() && Now() == Step(old(Now()), WriteOk(i))
    {
      hide Inv, Enabled, Post, AcceptStep, OnError, Written;
      ghost var before := Now();
      WriteReady(before, i);
      InvStep(before, WriteOk(i));
      client.OnWritten();
      assert ClientIds() == before.clients;
      assert Values() == before.sessions[i := client.Value()];
    }
  }
}

/**
 * The mutex-guarded queue and the server's `update` loop. Every queue operation is atomic, but
 * `wait` and `update` are sequences of operations between which other threads may push.
 */
module TsQueues {
  import opened Wrappers

  // ---------------------------------------------------------------- interleavings

  /** Where a consumer of the queue is. */
  datatype Pc =
    | Idle        // outside update
    | Checking    // in wait, about to test isEmpty
    | Blocked     // in wait, on the condition variable
    | Looping     // in update's loop, about to test the count and isEmpty
    | Popping     // both tests passed, popFront comes next

  /**
   * A consumer: its position, the bound of the current or last update, whether it was called with
   * waiting enabled, and what it has handled.
   */
  datatype Consumer<T> = Consumer(pc: Pc, max: nat, waits: bool, handled: seq<T>)

  /**
   * The queue with its users. `pushed` and `popped` are everything ever pushed and handled, `fronts`
   * counts the pushes to the front. `fault` records a pop from an empty queue.
   */
  datatype System<T> = System(data: seq<T>, consumers: seq<Consumer<T>>,
                              pushed: seq<T>, popped: seq<T>, fronts: nat, fault: bool)

  datatype Event<T> =
    | PushBack(x: T)
    | PushFront(x: T)
    | CallUpdate(i: nat, max: nat, waiting: bool)
    | Go(i: nat)      // consumer `i` performs its next atomic operation
    | Wake(i: nat)    // a notification or a spurious wake-up

  function Initial<T>(n: nat): System<T> {
    System([], seq(n, i => Consumer(Idle, 0, false, [])), [], [], 0, false)
  }

  predicate Enabled<T>(s: System<T>, e: Event<T>) {
    match e
    case PushBack(_) => true
    case PushFront(_) => true
    case CallUpdate(i, _, _) => i < |s.consumers| && s.consumers[i].pc == Idle
    case Go(i) => i < |s.consumers| && s.consumers[i].pc != Idle && s.consumers[i].pc != Blocked
    case Wake(i) => i < |s.consumers| && s.consumers[i].pc == Blocked
  }

  function WithConsumer<T>(s: System<T>, i: nat, c: Consumer<T>): System<T>
    requires i < |s.consumers|
  {
    s.(consumers := s.consumers[i := c])
  }

  function GoStep<T>(s: System<T>, i: nat): System<T>
    requires Enabled(s, Go(i))
  {
    var c := s.consumers[i];
    match c.pc
    case Checking => WithConsumer(s, i, c.(pc := if s.data == [] then Blocked else Looping))
    case Looping => WithConsumer(s, i, c.(pc := if |c.handled| < c.max && s.data != [] then Popping else Idle))
    case _ =>
      if s.data == [] then s.(fault := true)
      else
        WithConsumer(s, i, c.(pc := Looping, handled := c.handled + [s.data[0]]))
        .(data := s.data[1..], popped := s.popped + [s.data[0]])
  }

  function Step<T>(s: System<T>, e: Event<T>): (s': System<T>)
    requires Enabled(s, e)
    ensures |s'.consumers| == |s.consumers|
  {
    match e
    case PushBack(x) => s.(data := s.data + [x], pushed := s.pushed + [x])
    case PushFront(x) => s.(data := [x] + s.data, pushed := s.pushed + [x], fronts := s.fronts + 1)
    case CallUpdate(i, max, waiting) => WithConsumer(s, i, Consumer(if waiting then Checking else Looping, max, waiting, []))
    case Go(i) => GoStep(s, i)
    case Wake(i) => WithConsumer(s, i, s.consumers[i].(pc := Checking))
  }

  predicate CanRun<T>(s: System<T>, es: seq<Event<T>>)
    decreases |es|
  {
    es != [] ==> Enabled(s, es[0]) && CanRun(Step(s, es[0]), es[1..])
  }

  function Run<T>(s: System<T>, es: seq<Event<T>>): (s': System<T>)
    requires CanRun(s, es)
    ensures |s'.consumers| == |s.consumers|
    decreases |es|
  {
    if es == [] then s else Run(Step(s, es[0]), es[1..])
  }

  /** Nothing pushed is lost or made up, and without pushes to the front the order is kept. */
  ghost predicate Conserved<T>(pushed: seq<T>, popped: seq<T>, data: seq<T>, fronts: nat) {
    && multiset(pushed) == multiset(popped) + multiset(data)
    && (fronts == 0 ==> pushed == popped + data)
  }

  /** An update handles the last messages popped, at most its bound. */
  ghost predicate HandledOk<T>(c: Consumer<T>, popped: seq<T>) {
    && |c.handled| <= c.max
    && |c.handled| <= |popped|
    && popped[|popped| - |c.handled|..] == c.handled
  }

  /** Past its test of emptiness the only consumer still finds a message; past `wait` it finds its first. */
  ghost predicate PlaceOk<T>(c: Consumer<T>, data: seq<T>) {
    && (c.pc == Popping ==> data != [] && |c.handled| < c.max)
    && (c.waits && c.max > 0 && c.handled == [] ==>
          c.pc != Idle && (c.pc == Looping || c.pc == Popping ==> data != []))
  }

  /** What a queue with a single consumer keeps. */
  ghost predicate Inv<T>(s: System<T>) {
    && !s.fault && |s.consumers| == 1
    && Conserved(s.pushed, s.popped, s.data, s.fronts)
    && HandledOk(s.consumers[0], s.popped)
    && PlaceOk(s.consumers[0], s.data)
  }

  lemma InvInitial<T>()
    ensures Inv(Initial<T>(1))
  {
  }

  lemma InvGo<T>(s: System<T>)
    requires Inv(s) && Enabled(s, Go(0))
    ensures Inv(Step(s, Go(0)))
  {
    if s.consumers[0].pc == Popping {
      PopKeeps(s);
    } else {
      hide Conserved;
    }
  }

  lemma PopKeeps<T>(s: System<T>)
    requires Inv(s) && s.consumers[0].pc == Popping
    ensures Inv(Step(s, Go(0)))
  {
    var c := s.consumers[0];
    PopMoves(s.popped, s.data, c.handled);
    var c' := c.(pc := Looping, handled := c.handled + [s.data[0]]);
    assert Conserved(s.pushed, s.popped + [s.data[0]], s.data[1..], s.fronts);
    assert HandledOk(c', s.popped + [s.data[0]]);
    hide Conserved, HandledOk;
  }

  /** A pop moves the front of the queue to the end of what was popped. */
  lemma PopMoves<T>(popped: seq<T>, data: seq<T>, handled: seq<T>)
    requires data != [] && |handled| <= |popped| && popped[|popped| - |handled|..] == handled
    ensures popped + [data[0]] + data[1..] == popped + data
    ensures multiset(popped + [data[0]]) + multiset(data[1..]) == multiset(popped) + multiset(data)
    ensures (popped + [data[0]])[|popped| - |handled|..] == handled + [data[0]]
  {
    assert data == [data[0]] + data[1..];
    assert multiset(data) == multiset{data[0]} + multiset(data[1..]);
  }

  lemma PushKeeps<T>(pushed: seq<T>, popped: seq<T>, data: seq<T>, fronts: nat, x: T)
    requires Conserved(pushed, popped, data, fronts)
    ensures Conserved(pushed + [x], popped, data + [x], fronts)
    ensures Conserved(pushed + [x], popped, [x] + data, fronts + 1)
  {
    assert popped + (data + [x]) == popped + data + [x];
  }

  lemma InvStep<T>(s: System<T>, e: Event<T>)
    requires Inv(s) && Enabled(s, e)
    ensures Inv(Step(s, e))
  {
    match e
    case PushBack(x) =>
      PushKeeps(s.pushed, s.popped, s.data, s.fronts, x);
      hide HandledOk, Conserved;
    case PushFront(x) =>
      PushKeeps(s.pushed, s.popped, s.data, s.fronts, x);
      hide HandledOk, Conserved;
    case CallUpdate(i, max, waiting) =>
      hide Conserved;
      assert s.popped[|s.popped| - 0..] == [];
    case Go(i) =>
      assert i == 0;
      hide GoStep;
      InvGo(s);
    case Wake(i) =>
      hide GoStep, Conserved;
  }

  lemma {:induction false} InvRun<T>(s: System<T>, es: seq<Event<T>>)
    requires Inv(s) && CanRun(s, es)
    ensures Inv(Run(s, es))
    decreases |es|
  {
    if es != [] {
      InvStep(s, es[0]);
      InvRun(Step(s, es[0]), es[1..]);
    }
  }

  /**
   * One consumer, any pushers, any interleaving: no pop ever meets an empty queue, nothing is lost
   * or made up, without pushes to the front messages are handled in the order pushed, and one
   * `update` handles at most its bound, namely the last messages popped.
   */
  lemma SingleConsumer<T>(es: seq<Event<T>>)
    requires CanRun(Initial<T>(1), es)
    ensures var s := Run(Initial<T>(1), es);
            && !s.fault
            && multiset(s.pushed) == multiset(s.popped) + multiset(s.data)
            && (s.fronts == 0 ==> s.pushed == s.popped + s.data)
            && |s.consumers[0].handled| <= s.consumers[0].max
            && |s.consumers[0].handled| <= |s.popped|
            && s.popped[|s.popped| - |s.consumers[0].handled|..] == s.consumers[0].handled
            && (s.consumers[0].pc == Popping ==> s.data != [])
  {
    InvInitial<T>();
    hide Run, CanRun, Initial;
    InvRun(Initial<T>(1), es);
  }

  /**
   * Waiting is worth it: over every run with one consumer, an update called with waiting enabled
   * and a positive bound goes past `wait` only with a message in the queue, still finds it when it
   * tests again, and never returns without having handled one.
   */
  lemma WaitingUpdateHandles<T>(es: seq<Event<T>>)
    requires CanRun(Initial<T>(1), es)
    ensures var s := Run(Initial<T>(1), es);
            var c := s.consumers[0];
            c.waits && c.max > 0 ==>
              && (c.pc == Idle ==> c.handled != [])
              && ((c.pc == Looping || c.pc == Popping) && c.handled == [] ==> s.data != [])
  {
    InvInitial<T>();
    hide Run, CanRun, Initial, Conserved, HandledOk;
    InvRun(Initial<T>(1), es);
  }

  // ---------------------------------------------------------------- the queue, from the events alone

  function Pushes<T>(es: seq<Event<T>>): seq<T> {
    if es == [] then []
    else
      var before, last := es[..|es| - 1], es[|es| - 1];
      Pushes(before) + if last.PushBack? || last.PushFront? then [last.x] else []
  }

  function FrontPushes<T>(es: seq<Event<T>>): nat {
    if es == [] then 0
    else
      var before, last := es[..|es| - 1], es[|es| - 1];
      FrontPushes(before) + if last.PushFront? then 1 else 0
  }

  /** The bound and the waiting flag of the last `update` of consumer `i`. */
  function LastCall<T>(es: seq<Event<T>>, i: nat): (nat, bool) {
    if es == [] then (0, false)
    else
      var before, last := es[..|es| - 1], es[|es| - 1];
      if last.CallUpdate? && last.i == i then (last.max, last.waiting) else LastCall(before, i)
  }

  /** A consumer runs the update it was called for; only one called with waiting is ever in `wait`. */
  ghost predicate RunsCall<T>(c: Consumer<T>, es: seq<Event<T>>, i: nat) {
    (c.max, c.waits) == LastCall(es, i) && (c.pc == Checking || c.pc == Blocked ==> c.waits)
  }

  ghost predicate Follows<T>(s: System<T>, es: seq<Event<T>>) {
    && s.pushed == Pushes(es) && s.fronts == FrontPushes(es)
    && forall i :: 0 <= i < |s.consumers| ==> RunsCall(s.consumers[i], es, i)
  }

  lemma Next<T>(es: seq<Event<T>>, e: Event<T>)
    ensures Pushes(es + [e]) == Pushes(es) + if e.PushBack? || e.PushFront? then [e.x] else []
    ensures FrontPushes(es + [e]) == FrontPushes(es) + if e.PushFront? then 1 else 0
  {
    assert (es + [e])[..|es|] == es;
  }

  /** What a step does to a consumer, as far as its call is concerned. */
  lemma CallKept<T>(s: System<T>, e: Event<T>, i: nat)
    requires i < |s.consumers| && Enabled(s, e)
    ensures var c, c' := s.consumers[i], Step(s, e).consumers[i];
            if e.CallUpdate? && e.i == i then
              c' == Consumer(if e.waiting then Checking else Looping, e.max, e.waiting, [])
            else
              && c'.max == c.max && c'.waits == c.waits
              && (c'.pc == Checking || c'.pc == Blocked ==> c.pc == Checking || c.pc == Blocked)
  {
  }

  lemma RunsNext<T>(s: System<T>, es: seq<Event<T>>, e: Event<T>, i: nat)
    requires i < |s.consumers| && Enabled(s, e) && RunsCall(s.consumers[i], es, i)
    ensures RunsCall(Step(s, e).consumers[i], es + [e], i)
  {
    hide LastCall, Step, Enabled;
    CallKept(s, e, i);
    LastNext(es, e, i);
  }

  lemma LastNext<T>(es: seq<Event<T>>, e: Event<T>, i: nat)
    ensures LastCall(es + [e], i) == if e.CallUpdate? && e.i == i then (e.max, e.waiting) else LastCall(es, i)
  {
    assert (es + [e])[..|es|] == es;
  }

  lemma FollowsNext<T>(s: System<T>, es: seq<Event<T>>, e: Event<T>)
    requires Follows(s, es) && Enabled(s, e)
    ensures Follows(Step(s, e), es + [e])
  {
    Next(es, e);
    hide RunsCall, Pushes, FrontPushes;
    forall i | 0 <= i < |s.consumers|
      ensures RunsCall(Step(s, e).consumers[i], es + [e], i)
    {
      RunsNext(s, es, e, i);
    }
  }

  lemma {:induction false} FollowsRun<T>(s: System<T>, earlier: seq<Event<T>>, es: seq<Event<T>>)
    requires Follows(s, earlier) && CanRun(s, es)
    ensures Follows(Run(s, es), earlier + es)
    decreases |es|
  {
    hide Follows, Step, Enabled;
    OneByOne(earlier, es);
    if es != [] {
      FollowsNext(s, earlier, es[0]);
      FollowsRun(Step(s, es[0]), earlier + [es[0]], es[1..]);
    }
  }

  /**
   * The queue does what the events call for, over every run with any number of consumers: what was
   * pushed is what the push events pushed, in order; and every consumer runs with the bound and the
   * waiting flag of its last call, and is in `wait` only if that flag was set.
   */
  lemma RunFollowsEvents<T>(n: nat, es: seq<Event<T>>, i: nat)
    requires i < n && CanRun(Initial<T>(n), es)
    ensures var s := Run(Initial<T>(n), es);
            && s.pushed == Pushes(es) && s.fronts == FrontPushes(es)
            && |s.consumers| == n && (s.consumers[i].max, s.consumers[i].waits) == LastCall(es, i)
            && (s.consumers[i].pc == Checking || s.consumers[i].pc == Blocked ==> LastCall(es, i).1)
  {
    assert Follows(Initial<T>(n), []);
    NothingFirst(es);
    hide Run, CanRun, Initial, Pushes, FrontPushes, LastCall;
    FollowsRun(Initial<T>(n), [], es);
    assert RunsCall(Run(Initial<T>(n), es).consumers[i], es, i);
  }

  /**
   * `update` returns by itself and not too early: exactly when it tests its loop condition with its
   * bound reached or with the queue empty.
   */
  lemma ReturnsExact<T>(s: System<T>, e: Event<T>, i: nat)
    requires i < |s.consumers| && Enabled(s, e) && s.consumers[i].pc != Idle
    ensures Step(s, e).consumers[i].pc == Idle <==>
              e == Event<T>.Go(i) && s.consumers[i].pc == Looping
              && (|s.consumers[i].handled| >= s.consumers[i].max || s.data == [])
  {
  }

  /**
   * `wait` lets its consumer pass exactly when it finds the queue non-empty and blocks it otherwise;
   * a blocked consumer does nothing until it is woken, and then looks again.
   */
  lemma WaitsExact<T>(s: System<T>, e: Event<T>, i: nat)
    requires i < |s.consumers| && Enabled(s, e) && (s.consumers[i].pc == Checking || s.consumers[i].pc == Blocked)
    ensures Step(s, e).consumers[i].pc ==
            if e == Event<T>.Go(i) then (if s.data == [] then Blocked else Looping)
            else if e == Event<T>.Wake(i) then Checking
            else s.consumers[i].pc
  {
  }

  /** What is pushed to the front is what the next pop of any consumer returns. */
  lemma {:induction false} FrontFirst<T>(s: System<T>, popped: seq<T>, x: T, es: seq<Event<T>>)
    requires CanRun(s, es) && forall k :: 0 <= k < |es| ==> !es[k].PushFront?
    requires popped <= s.popped
    requires if s.popped == popped then s.data != [] && s.data[0] == x else s.popped[|popped|] == x
    ensures var s' := Run(s, es);
            && popped <= s'.popped
            && if s'.popped == popped then s'.data != [] && s'.data[0] == x else s'.popped[|popped|] == x
    decreases |es|
  {
    if es != [] {
      assert !es[0].PushFront?;
      FrontFirst(Step(s, es[0]), popped, x, es[1..]);
    }
  }

  lemma PushFrontIsNext<T>(s: System<T>, x: T, es: seq<Event<T>>)
    requires CanRun(Step(s, PushFront(x)), es) && forall k :: 0 <= k < |es| ==> !es[k].PushFront?
    ensures var s' := Run(Step(s, PushFront(x)), es);
            && s.popped <= s'.popped
            && if s'.popped == s.popped then s'.data != [] && s'.data[0] == x else s'.popped[|s.popped|] == x
  {
    FrontFirst(Step(s, PushFront(x)), s.popped, x, es);
  }

  // ---------------------------------------------------------------- update ends

  function GoCount<T>(es: seq<Event<T>>): nat {
    if es == [] then 0 else (if es[0].Go? then 1 else 0) + GoCount(es[1..])
  }

  /** The operations an update in its loop can still perform. */
  function Rank<T>(c: Consumer<T>): int {
    match c.pc
    case Looping => 2 * (c.max - |c.handled|) + 1
    case Popping => 2 * (c.max - |c.handled|)
    case _ => 0
  }

  /** Only an operation of the consumer itself brings it nearer to its end, and each one does. */
  lemma RankStep<T>(s: System<T>, e: Event<T>)
    requires Inv(s) && Enabled(s, e) && s.consumers[0].pc in {Looping, Popping}
    ensures Step(s, e).consumers[0].pc in {Looping, Popping, Idle}
    ensures Rank(Step(s, e).consumers[0]) <= Rank(s.consumers[0]) - (if e.Go? then 1 else 0)
  {
  }

  lemma FirstEvents<T>(s: System<T>, es: seq<Event<T>>, k: nat)
    requires k < |es| && Enabled(s, es[0]) && CanRun(Step(s, es[0]), es[1..][..k])
    ensures CanRun(s, es[..k + 1]) && Run(s, es[..k + 1]) == Run(Step(s, es[0]), es[1..][..k])
  {
    assert es[..k + 1][0] == es[0] && es[..k + 1][1..] == es[1..][..k];
  }

  /**
   * `update` ends by its bound, however fast others push: once in its loop with `n` messages
   * handled it returns before it has performed `2 * (max - n) + 1` further operations.
   */
  lemma {:induction false} UpdateEnds<T>(s: System<T>, es: seq<Event<T>>)
    requires Inv(s) && CanRun(s, es) && s.consumers[0].pc in {Looping, Popping, Idle}
    requires GoCount(es) >= Rank(s.consumers[0])
    ensures exists k :: 0 <= k <= |es| && CanRun(s, es[..k]) && Run(s, es[..k]).consumers[0].pc == Idle
    decreases |es|
  {
    if s.consumers[0].pc == Idle {
      assert es[..0] == [] && CanRun(s, es[..0]) && Run(s, es[..0]) == s;
    } else {
      var s' := Step(s, es[0]);
      InvStep(s, es[0]);
      RankStep(s, es[0]);
      hide Step, Enabled, Inv, Rank;
      UpdateEnds(s', es[1..]);
      var k :| 0 <= k <= |es[1..]| && CanRun(s', es[1..][..k]) && Run(s', es[1..][..k]).consumers[0].pc == Idle;
      FirstEvents(s, es, k);
      hide Run, CanRun;
      assert Run(s, es[..k + 1]).consumers[0].pc == Idle;
    }
  }

  // ---------------------------------------------------------------- one consumer is the limit

  lemma {:induction false} RunAppend<T>(s: System<T>, es: seq<Event<T>>, fs: seq<Event<T>>)
    requires CanRun(s, es) && CanRun(Run(s, es), fs)
    ensures CanRun(s, es + fs) && Run(s, es + fs) == Run(Run(s, es), fs)
    decreases |es|
  {
    if es == [] {
      assert es + fs == fs;
    } else {
      RunUnfold(s, es);
      hide Run, CanRun, Step, Enabled;
      RunAppend(Step(s, es[0]), es[1..], fs);
      RunFirst(s, es[0], es[1..] + fs);
      assert es + fs == [es[0]] + (es[1..] + fs);
    }
  }

  lemma RunUnfold<T>(s: System<T>, es: seq<Event<T>>)
    requires es != [] && CanRun(s, es)
    ensures Enabled(s, es[0]) && CanRun(Step(s, es[0]), es[1..])
    ensures Run(s, es) == Run(Step(s, es[0]), es[1..])
  {
    hide Step, Enabled;
  }

  lemma RunFirst<T>(s: System<T>, e: Event<T>, es: seq<Event<T>>)
    requires Enabled(s, e) && CanRun(Step(s, e), es)
    ensures CanRun(s, [e] + es) && Run(s, [e] + es) == Run(Step(s, e), es)
  {
    hide Step, Enabled;
    assert ([e] + es)[1..] == es;
  }

  ghost predicate Reaches<T(!new)>(s: System<T>, t: System<T>) {
    exists es :: CanRun(s, es) && Run(s, es) == t
  }

  lemma RunOne<T>(s: System<T>, e: Event<T>)
    requires Enabled(s, e)
    ensures CanRun(s, [e]) && Run(s, [e]) == Step(s, e)
  {
    var none := [e][1..];
    assert none == [];
    assert Run(Step(s, e), none) == Step(s, e);
  }

  lemma ReachesStep<T(!new)>(s: System<T>, t: System<T>, e: Event<T>)
    requires Reaches(s, t) && Enabled(t, e)
    ensures Reaches(s, Step(t, e))
  {
    var es :| CanRun(s, es) && Run(s, es) == t;
    RunOne(t, e);
    RunAppend(s, es, [e]);
  }

  /** A run of `n` consumers in which some pop meets an empty queue. */
  predicate FaultyRun<T>(n: nat, es: seq<Event<T>>) {
    CanRun(Initial<T>(n), es) && Run(Initial<T>(n), es).fault
  }

  /** Testing and popping in two operations is safe exactly with a single consumer. */
  lemma SafeExactlyWithOneConsumer<T(!new)>(n: nat, x: T)
    requires n > 0
    ensures (forall es: seq<Event<T>> :: !FaultyRun(n, es)) <==> n == 1
  {
    if n == 1 {
      forall es: seq<Event<T>>
        ensures !FaultyRun(n, es)
      {
        if CanRun(Initial<T>(n), es) {
          InvRun(Initial<T>(n), es);
        }
      }
    } else {
      var s := TwoPopOne(n, x);
      var es :| CanRun(Initial<T>(n), es) && Run(Initial<T>(n), es) == s;
      assert FaultyRun(n, es);
    }
  }

  /** A message is queued and two consumers are in their loops. */
  lemma TwoInLoop<T(!new)>(n: nat, x: T) returns (s: System<T>)
    requires n >= 2
    ensures Reaches(Initial<T>(n), s) && |s.consumers| == n && s.data == [x]
    ensures s.consumers[0] == s.consumers[1] == Consumer(Looping, 1, false, [])
  {
    var s0 := Initial<T>(n);
    assert CanRun(s0, []) && Run(s0, []) == s0;
    hide Reaches, Run, CanRun;
    ReachesStep(s0, s0, PushBack(x));
    var s1 := Step(s0, PushBack(x));
    ReachesStep(s0, s1, CallUpdate(0, 1, false));
    var s2 := Step(s1, CallUpdate(0, 1, false));
    ReachesStep(s0, s2, CallUpdate(1, 1, false));
    s := Step(s2, CallUpdate(1, 1, false));
  }

  /** Two consumers test the same single message, then both pop. */
  lemma TwoPopOne<T(!new)>(n: nat, x: T) returns (s: System<T>)
    requires n >= 2
    ensures Reaches(Initial<T>(n), s) && s.fault
  {
    var s0 := Initial<T>(n);
    var s3 := TwoInLoop(n, x);
    hide Reaches, Initial;
    ReachesStep(s0, s3, Go(0));
    var s4 := Step(s3, Go(0));
    ReachesStep(s0, s4, Go(1));
    var s5 := Step(s4, Go(1));
    ReachesStep(s0, s5, Go(0));
    var s6 := Step(s5, Go(0));
    ReachesStep(s0, s6, Go(1));
    s := Step(s6, Go(1));
  }

  // ---------------------------------------------------------------- the queue as an object

  class TsNetQueue<T> {
    var data: seq<T>

    constructor ()
      ensures data == []
    {
      data := [];
    }

    method PushBack(x: T)
      modifies this
      ensures data == old(data) + [x]
    {
      data := data + [x];
    }

    method PushFront(x: T)
      modifies this
      ensures data == [x] + old(data)
    {
      data := [x] + data;
    }

    method IsEmpty() returns (empty: bool)
      ensures empty <==> data == []
    {
      empty := data == [];
    }

    method PopFront() returns (x: T)
      requires data != []
      modifies this
      ensures [x] + data == old(data)
    {
      x := data[0];
      data := data[1..];
    }

    /** Other threads push `xs` between two operations of the consumer. */
    method PushAllBack(xs: seq<T>)
      modifies this
      ensures data == old(data) + xs
    {
      for i := 0 to |xs|
        invariant data == old(data) + xs[..i]
      {
        PushBack(xs[i]);
        assert xs[..i + 1] == xs[..i] + [xs[i]];
      }
      assert xs[..|xs|] == xs;
    }
  }

  /** What other threads have pushed before the consumer's operation number `k`. */
  function Arrived<T>(arrivals: nat -> seq<T>, k: nat): seq<T> {
    if k == 0 then [] else Arrived(arrivals, k - 1) + arrivals(k - 1)
  }

  /** One push of others more. */
  lemma ArrivedMore<T>(handled: seq<T>, data: seq<T>, start: seq<T>, arrivals: nat -> seq<T>, k: nat)
    requires handled + data == start + Arrived(arrivals, k)
    ensures handled + (data + arrivals(k)) == start + Arrived(arrivals, k + 1)
  {
    assert handled + (data + arrivals(k)) == handled + data + arrivals(k);
  }

  lemma PoppedMore<T>(handled: seq<T>, m: T, data: seq<T>)
    ensures handled + ([m] + data) == handled + [m] + data
  {
  }

  /**
   * The loop of `update`: before its operation number `k` other threads push `arrivals(k)`. It
   * handles a prefix of everything queued and pushed meanwhile, at most `numMaxMessages` messages,
   * and fewer only if it found the queue empty.
   */
  method Update<T>(queue: TsNetQueue<T>, numMaxMessages: nat, arrivals: nat -> seq<T>)
    returns (handled: seq<T>, operations: nat)
    modifies queue
    ensures handled + queue.data == old(queue.data) + Arrived(arrivals, operations)
    ensures |handled| <= numMaxMessages
    ensures |handled| < numMaxMessages ==> queue.data == []
    ensures operations <= 2 * numMaxMessages
  {
    ghost var start := queue.data;
    handled, operations := [], 0;
    var msgCount := 0;
    var more := true;
    assert handled + queue.data == start + Arrived(arrivals, 0);
    hide Arrived;
    while msgCount < numMaxMessages && more
      invariant handled + queue.data == start + Arrived(arrivals, operations)
      invariant |handled| == msgCount <= numMaxMessages
      invariant !more ==> queue.data == []
      invariant more ==> operations == 2 * msgCount
      invariant operations <= 2 * numMaxMessages
      decreases numMaxMessages - msgCount, more
    {
      ArrivedMore(handled, queue.data, start, arrivals, operations);
      queue.PushAllBack(arrivals(operations));
      operations := operations + 1;
      var empty := queue.IsEmpty();
      if empty {
        more := false;
      } else {
        ArrivedMore(handled, queue.data, start, arrivals, operations);
        queue.PushAllBack(arrivals(operations));
        operations := operations + 1;
        var m := queue.PopFront();
        PoppedMore(handled, m, queue.data);
        handled := handled + [m];
        msgCount := msgCount + 1;
      }
    }
  }
}

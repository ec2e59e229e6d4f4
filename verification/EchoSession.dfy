/**
 * The decoupled echo session: one read and one write outstanding at the same time on one
 * circular buffer, steered by `writing_`. A step is one completion handler, or the moment
 * the operating system moves bytes through an outstanding operation.
 */
module EchoSessions {
  import opened Arith
  import opened CircularBuffers
  import opened Wrappers

  /** An outstanding composed read: the counter and length it prepared, the slices it got, the bytes stored so far. */
  datatype ReadOp = ReadOp(begin: nat, want: nat, slices: seq<Slice>, filled: nat)

  /** An outstanding composed write: the window it took a snapshot of, its slices, the bytes sent so far. */
  datatype WriteOp = WriteOp(begin: nat, want: nat, slices: seq<Slice>, sent: nat)

  /**
   * A session. `inbound` is every byte the operating system stored, `outbound` every byte it
   * sent. `fault` records what must never happen: an uncaught `length_error`, a second
   * outstanding operation of one kind, or an access outside the array.
   */
  datatype Echo = Echo(ring: Ring, rd: Option<ReadOp>, wr: Option<WriteOp>, writing: bool, open: bool,
                       fault: bool, inbound: seq<byte>, outbound: seq<byte>)

  datatype Event =
    | Arrive(chunk: seq<byte>)          // bytes land in the prepared slices
    | ReadDone(ok: bool, ask: nat)      // read completion; `ask` is what a next read prepares
    | Transmit(k: nat)                  // `k` bytes leave from the snapshot slices
    | WriteDone(ok: bool)               // write completion

  // ---------------------------------------------------------------- handlers

  function BeginRead(s: Echo, ask: nat): Echo
    requires s.ring.Valid()
  {
    if s.rd.Some? then s.(fault := true)
    else
      match s.ring.Prepare(ask)
      case None => s.(fault := true)
      case Some(slices) => s.(rd := Some(ReadOp(s.ring.tail, ask, slices, 0)))
  }

  function BeginWrite(s: Echo): Echo
    requires s.ring.Valid()
  {
    if s.wr.Some? then s.(fault := true)
    else s.(writing := true, wr := Some(WriteOp(s.ring.head, s.ring.Size(), s.ring.Data(), 0)))
  }

  function OnReadStep(s: Echo, ok: bool, n: nat, ask: nat): Echo
    requires s.ring.Valid()
  {
    if ok && n != 0 then BeginRead(if s.writing then s else BeginWrite(s), ask)
    else s.(open := false)
  }

  function OnWriteStep(s: Echo, ok: bool): Echo
    requires s.ring.Valid()
  {
    var s' := s.(writing := false);
    if !ok then s'.(open := false)
    else if s'.ring.Size() != 0 then BeginWrite(s')
    else s'
  }

  // ---------------------------------------------------------------- steps and runs

  /** A composed read prepares at most the room that is left, and something if there is any. */
  predicate AskOk(ring: Ring, ask: nat)
    requires ring.Valid()
  {
    ring.Size() + ask <= ring.cap && (ring.Size() < ring.cap ==> ask > 0)
  }

  predicate Enabled(s: Echo, e: Event)
    requires s.ring.Valid()
  {
    match e
    case Arrive(chunk) => s.open && s.rd.Some? && s.rd.value.filled + |chunk| <= |Cells(s.rd.value.slices)|
    case ReadDone(ok, ask) => s.rd.Some? && (ok && s.rd.value.filled != 0 ==> AskOk(s.ring.Commit(s.rd.value.filled), ask))
    case Transmit(k) => s.open && s.wr.Some? && s.wr.value.sent + k <= |Cells(s.wr.value.slices)|
    case WriteDone(ok) => s.wr.Some? && (ok ==> s.wr.value.sent == |Cells(s.wr.value.slices)|)
  }

  lemma {:induction false} CellsInBounds(cap: nat, slices: seq<Slice>)
    requires InBounds(cap, slices)
    ensures forall i :: 0 <= i < |Cells(slices)| ==> Cells(slices)[i] < cap
  {
    if slices != [] {
      assert slices[0] in slices;
      assert forall s :: s in slices[1..] ==> s in slices;
      CellsInBounds(cap, slices[1..]);
    }
  }

  function ArriveStep(s: Echo, chunk: seq<byte>): Echo
    requires s.ring.Valid() && Enabled(s, Arrive(chunk))
  {
    var op := s.rd.value;
    if !InBounds(s.ring.cap, op.slices) then s.(fault := true)
    else
      CellsInBounds(s.ring.cap, op.slices);
      var cells := Cells(op.slices)[op.filled..op.filled + |chunk|];
      s.(ring := s.ring.(mem := Store(s.ring.mem, cells, chunk)),
         rd := Some(op.(filled := op.filled + |chunk|)),
         inbound := s.inbound + chunk)
  }

  function TransmitStep(s: Echo, k: nat): Echo
    requires s.ring.Valid() && Enabled(s, Transmit(k))
  {
    var op := s.wr.value;
    if !InBounds(s.ring.cap, op.slices) then s.(fault := true)
    else
      CellsInBounds(s.ring.cap, op.slices);
      s.(wr := Some(op.(sent := op.sent + k)),
         outbound := s.outbound + Load(s.ring.mem, Cells(op.slices)[op.sent..op.sent + k]))
  }

  function Step(s: Echo, e: Event): (s': Echo)
    requires s.ring.Valid() && Enabled(s, e)
    ensures s'.ring.Valid() && s'.ring.cap == s.ring.cap
  {
    match e
    case Arrive(chunk) => ArriveStep(s, chunk)
    case ReadDone(ok, ask) =>
      OnReadStep(s.(ring := s.ring.Commit(s.rd.value.filled), rd := None), ok, s.rd.value.filled, ask)
    case Transmit(k) => TransmitStep(s, k)
    case WriteDone(ok) =>
      OnWriteStep(s.(ring := s.ring.Consume(s.wr.value.sent), wr := None), ok)
  }

  /** Every event of `es` can happen when its turn comes. */
  predicate CanRun(s: Echo, es: seq<Event>)
    requires s.ring.Valid()
    decreases |es|
  {
    es != [] ==> Enabled(s, es[0]) && CanRun(Step(s, es[0]), es[1..])
  }

  function Run(s: Echo, es: seq<Event>): (s': Echo)
    requires s.ring.Valid() && CanRun(s, es)
    ensures s'.ring.Valid() && s'.ring.cap == s.ring.cap
    decreases |es|
  {
    if es == [] then s else Run(Step(s, es[0]), es[1..])
  }

  /** A session as `start` leaves it: an empty buffer over arbitrary memory, and the first read begun. */
  function Start(mem: seq<byte>, ask: nat): (s: Echo)
    requires 0 < |mem| < TWO64
    ensures s.ring.Valid() && s.ring.cap == |mem|
  {
    BeginRead(Echo(Ring(|mem|, mem, 0, 0), None, None, false, true, false, [], []), ask)
  }

  // ---------------------------------------------------------------- the invariant

  /** Bytes consumed so far: the unbounded value of `head_`. */
  function Head(s: Echo): int {
    |s.outbound| - if s.wr.Some? then s.wr.value.sent else 0
  }

  /** Bytes committed so far: the unbounded value of `tail_`. */
  function Tail(s: Echo): int {
    |s.inbound| - if s.rd.Some? then s.rd.value.filled else 0
  }

  ghost predicate Counters(s: Echo) {
    && s.ring.Valid() && WholeLaps(s.ring.cap)
    && 0 <= Head(s) <= |s.outbound| <= Tail(s) <= |s.inbound| <= Head(s) + s.ring.cap
    && s.ring.head == Wrap(Head(s)) && s.ring.tail == Wrap(Tail(s))
  }

  /** Every byte stored and not yet consumed is in its cell, and what was sent is what came in. */
  ghost predicate Bytes(s: Echo)
    requires Counters(s)
  {
    && s.outbound == s.inbound[..|s.outbound|]
    && Holds(s.ring.mem, Head(s), s.inbound)
  }

  ghost predicate ReadOk(s: Echo)
    requires Counters(s)
  {
    s.rd.Some? ==>
      var op := s.rd.value;
      && op.filled <= op.want && Tail(s) + op.want <= Head(s) + s.ring.cap
      && op.slices == UnboundedSequence(s.ring.cap, Tail(s), Tail(s) + op.want)
      && op.begin == s.ring.tail
      && InDomain(s.ring.cap, Tail(s), op.want)
  }

  ghost predicate WriteOk(s: Echo)
    requires Counters(s)
  {
    s.wr.Some? ==>
      var op := s.wr.value;
      && op.sent <= op.want && 0 < op.want && Head(s) + op.want <= Tail(s)
      && op.slices == UnboundedSequence(s.ring.cap, Head(s), Head(s) + op.want)
      && op.begin == s.ring.head
      && (s.open ==> InDomain(s.ring.cap, Head(s), op.want))
  }

  ghost predicate Inv(s: Echo) {
    && !s.fault && s.ring.Valid()
    && Counters(s) && Bytes(s) && ReadOk(s) && WriteOk(s)
    && s.writing == s.wr.Some?
    && (s.open ==> s.rd.Some? && (s.writing <==> Head(s) < Tail(s)))
  }

  lemma SizeIsDifference(s: Echo)
    requires Counters(s)
    ensures s.ring.Size() == Tail(s) - Head(s) <= s.ring.cap
  {
    WrapDifference(Head(s), Tail(s));
  }

  /** The outstanding read's cells are the positions from the tail on. */
  lemma ReadCells(s: Echo)
    requires Counters(s) && ReadOk(s) && s.rd.Some?
    ensures InBounds(s.ring.cap, s.rd.value.slices)
    ensures Cells(s.rd.value.slices) == WindowCells(s.ring.cap, Tail(s), s.rd.value.want)
  {
    SlicesAreWindow(s.ring.cap, Tail(s), Tail(s) + s.rd.value.want);
  }

  lemma WriteCells(s: Echo)
    requires Counters(s) && WriteOk(s) && s.wr.Some? && s.open
    ensures InBounds(s.ring.cap, s.wr.value.slices)
    ensures Cells(s.wr.value.slices) == WindowCells(s.ring.cap, Head(s), s.wr.value.want)
  {
    SlicesAreWindow(s.ring.cap, Head(s), Head(s) + s.wr.value.want);
  }

  lemma InvStart(mem: seq<byte>, ask: nat)
    requires 0 < |mem| < TWO64 && WholeLaps(|mem|) && 0 < ask <= |mem|
    ensures Inv(Start(mem, ask))
  {
    WrappedSlices(|mem|, 0, ask);
  }

  // ---------------------------------------------------------------- every step keeps it

  /** The cells the next bytes of the outstanding read go to. */
  lemma NextReadCells(s: Echo, n: nat)
    requires Counters(s) && ReadOk(s) && s.rd.Some?
    requires s.rd.value.filled + n <= |Cells(s.rd.value.slices)|
    ensures s.rd.value.filled + n <= s.rd.value.want
    ensures InBounds(s.ring.cap, s.rd.value.slices)
    ensures Cells(s.rd.value.slices)[s.rd.value.filled..s.rd.value.filled + n]
            == WindowCells(s.ring.cap, |s.inbound|, n)
  {
    hide Cell, Wrap, Cells, UnboundedSequence, WindowCells;
    ReadCells(s);
    SubWindow(s.ring.cap, Tail(s), s.rd.value.want, s.rd.value.filled, n);
    assert Tail(s) + s.rd.value.filled == |s.inbound|;
  }

  lemma NextWriteCells(s: Echo, n: nat)
    requires Counters(s) && WriteOk(s) && s.wr.Some? && s.open
    requires s.wr.value.sent + n <= |Cells(s.wr.value.slices)|
    ensures s.wr.value.sent + n <= s.wr.value.want && |s.outbound| + n <= Tail(s)
    ensures InBounds(s.ring.cap, s.wr.value.slices)
    ensures Cells(s.wr.value.slices)[s.wr.value.sent..s.wr.value.sent + n]
            == WindowCells(s.ring.cap, |s.outbound|, n)
  {
    hide Cell, Wrap, Cells, UnboundedSequence, WindowCells;
    WriteCells(s);
    SubWindow(s.ring.cap, Head(s), s.wr.value.want, s.wr.value.sent, n);
    assert Head(s) + s.wr.value.sent == |s.outbound|;
  }

  /** What a step of arriving bytes does, in terms of the history. */
  lemma ArriveEffect(s: Echo, chunk: seq<byte>)
    requires Inv(s) && Enabled(s, Arrive(chunk))
    ensures var op := s.rd.value;
            && op.filled + |chunk| <= op.want
            && Step(s, Arrive(chunk)) ==
               s.(ring := s.ring.(mem := Store(s.ring.mem, WindowCells(s.ring.cap, |s.inbound|, |chunk|), chunk)),
                  rd := Some(op.(filled := op.filled + |chunk|)),
                  inbound := s.inbound + chunk)
  {
    hide Cell, Wrap, Cells, UnboundedSequence, Store, WindowCells, InBounds;
    NextReadCells(s, |chunk|);
    hide Counters, Bytes, ReadOk, WriteOk;
  }

  lemma InvArrive(s: Echo, chunk: seq<byte>)
    requires Inv(s) && Enabled(s, Arrive(chunk))
    ensures Inv(Step(s, Arrive(chunk)))
  {
    hide Cell, Wrap, Cells, Store, WindowCells, UnboundedSequence, Holds, ArriveStep;
    ArriveEffect(s, chunk);
    StoreExtends(s.ring.mem, Head(s), s.inbound, chunk);
    var s' := Step(s, Arrive(chunk));
    assert s'.inbound[..|s.outbound|] == s.inbound[..|s.outbound|];
    assert Head(s') == Head(s) && Tail(s') == Tail(s);
  }

  /** What a step of sending does, in terms of the history. */
  lemma TransmitEffect(s: Echo, k: nat)
    requires Inv(s) && Enabled(s, Transmit(k))
    ensures var op := s.wr.value;
            && op.sent + k <= op.want && |s.outbound| + k <= |s.inbound|
            && Step(s, Transmit(k)) ==
               s.(wr := Some(op.(sent := op.sent + k)),
                  outbound := s.outbound + s.inbound[|s.outbound|..|s.outbound| + k])
  {
    hide Cell, Wrap, Cells, UnboundedSequence, Load, WindowCells, InBounds, Holds;
    NextWriteCells(s, k);
    LoadHeld(s.ring.mem, Head(s), s.inbound, |s.outbound|, k);
    hide Counters, Bytes, ReadOk, WriteOk;
  }

  lemma InvTransmit(s: Echo, k: nat)
    requires Inv(s) && Enabled(s, Transmit(k))
    ensures Inv(Step(s, Transmit(k)))
  {
    hide Cell, Wrap, Cells, Load, WindowCells, UnboundedSequence, Holds, TransmitStep;
    TransmitEffect(s, k);
    var s' := Step(s, Transmit(k));
    assert s'.outbound == s.inbound[..|s.outbound| + k];
    assert Head(s') == Head(s) && Tail(s') == Tail(s);
  }

  lemma BeginWriteOk(s: Echo)
    requires Counters(s) && Bytes(s) && ReadOk(s) && s.wr.None? && Head(s) < Tail(s) && !s.fault
    requires s.open ==> InDomain(s.ring.cap, Head(s), Tail(s) - Head(s))
    ensures var s' := BeginWrite(s);
            && !s'.fault && s' == s.(writing := true, wr := s'.wr) && s'.wr.Some?
            && Counters(s') && Bytes(s') && ReadOk(s') && WriteOk(s')
  {
    hide Cell, Wrap, UnboundedSequence, MakeSequence, Holds;
    SizeIsDifference(s);
    WrappedSlices(s.ring.cap, Head(s), Tail(s));
  }

  /** While there is room, `prepare` hands out the positions from the tail on. */
  lemma NextPrepare(s: Echo, ask: nat)
    requires Counters(s) && s.ring.Size() + ask <= s.ring.cap
    ensures s.ring.Prepare(ask) == Some(UnboundedSequence(s.ring.cap, Tail(s), Tail(s) + ask))
  {
    hide Cell, Wrap, UnboundedSequence, MakeSequence;
    WrapSmall(s.ring.Size() + ask);
    WrappedSlices(s.ring.cap, Tail(s), Tail(s) + ask);
    WrapSum(Tail(s), ask);
  }

  lemma BeginReadOk(s: Echo, ask: nat)
    requires Counters(s) && Bytes(s) && WriteOk(s) && s.rd.None? && Head(s) < Tail(s) && !s.fault
    requires AskOk(s.ring, ask)
    ensures BeginRead(s, ask) ==
            s.(rd := Some(ReadOp(s.ring.tail, ask, UnboundedSequence(s.ring.cap, Tail(s), Tail(s) + ask), 0)))
    ensures var s' := BeginRead(s, ask); Counters(s') && Bytes(s') && ReadOk(s') && WriteOk(s')
  {
    hide Cell, Wrap, UnboundedSequence, MakeSequence;
    SizeIsDifference(s);
    NextPrepare(s, ask);
  }

  /** Committing what arrived, with the read gone. */
  lemma CommitKeeps(s: Echo)
    requires Inv(s) && s.rd.Some?
    ensures var s' := s.(ring := s.ring.Commit(s.rd.value.filled), rd := None);
            Counters(s') && Bytes(s') && WriteOk(s') && Tail(s') == |s.inbound| && Head(s') == Head(s)
  {
    hide Cell, Wrap, UnboundedSequence, Holds;
    WrapSum(Tail(s), s.rd.value.filled);
  }

  lemma InvReadDone(s: Echo, ok: bool, ask: nat)
    requires Inv(s) && Enabled(s, ReadDone(ok, ask))
    ensures Inv(Step(s, ReadDone(ok, ask)))
  {
    hide Cell, Wrap, UnboundedSequence, MakeSequence;
    hide Ring.Prepare, Ring.Size;
    CommitKeeps(s);
    var n := s.rd.value.filled;
    var s1 := s.(ring := s.ring.Commit(n), rd := None);
    if ok && n != 0 {
      if !s.writing {
        BeginWriteOk(s1);
        BeginReadOk(BeginWrite(s1), ask);
      } else {
        BeginReadOk(s1, ask);
      }
    }
  }

  /** Consuming what was sent, with the write gone. */
  lemma ConsumeKeeps(s: Echo)
    requires Inv(s) && s.wr.Some?
    ensures var s' := s.(ring := s.ring.Consume(s.wr.value.sent), wr := None, writing := false);
            Counters(s') && Bytes(s') && ReadOk(s') && Tail(s') == Tail(s) && Head(s') == |s.outbound|
  {
    hide Cell, Wrap, UnboundedSequence;
    WrapSum(Head(s), s.wr.value.sent);
  }

  lemma InvWriteDone(s: Echo, ok: bool)
    requires Inv(s) && Enabled(s, WriteDone(ok))
    ensures Inv(Step(s, WriteDone(ok)))
  {
    hide Cell, Wrap, UnboundedSequence, MakeSequence;
    hide Ring.Prepare, Ring.Size;
    ConsumeKeeps(s);
    var s1 := s.(ring := s.ring.Consume(s.wr.value.sent), wr := None, writing := false);
    SizeIsDifference(s1);
    if ok {
      assert s.wr.value.sent > 0 by {
        if s.open { WriteCells(s); }
        NonEmptyWindow(s.ring.cap, Head(s), s.wr.value.want);
      }
      if s1.ring.Size() != 0 {
        BeginWriteOk(s1);
      }
    }
  }

  /** A window of at least one byte has at least one cell, in its domain or not. */
  lemma NonEmptyWindow(cap: nat, begin: nat, size: nat)
    requires cap > 0 && size > 0
    ensures |Cells(UnboundedSequence(cap, begin, begin + size))| > 0
  {
    var slices := UnboundedSequence(cap, begin, begin + size);
    assert Cells(slices) == SliceCells(slices[0]) + Cells(slices[1..]);
  }

  lemma InvStep(s: Echo, e: Event)
    requires Inv(s) && Enabled(s, e)
    ensures Inv(Step(s, e))
  {
    match e
    case Arrive(chunk) => InvArrive(s, chunk);
    case ReadDone(ok, ask) => InvReadDone(s, ok, ask);
    case Transmit(k) => InvTransmit(s, k);
    case WriteDone(ok) => InvWriteDone(s, ok);
  }

  lemma {:induction false} InvRun(s: Echo, es: seq<Event>)
    requires Inv(s) && CanRun(s, es)
    ensures Inv(Run(s, es))
    decreases |es|
  {
    if es != [] {
      InvStep(s, es[0]);
      InvRun(Step(s, es[0]), es[1..]);
    }
  }

  // ---------------------------------------------------------------- results over whole runs

  /**
   * Echo: in every state of every run, what was sent is a prefix of what came in, nothing ever
   * faulted, and the committed bytes are the consumed bytes followed by the buffer's contents.
   */
  lemma EchoStream(mem: seq<byte>, ask: nat, es: seq<Event>)
    requires 0 < |mem| < TWO64 && WholeLaps(|mem|) && 0 < ask <= |mem|
    requires CanRun(Start(mem, ask), es)
    ensures var s := Run(Start(mem, ask), es);
            && !s.fault
            && s.outbound <= s.inbound
            && 0 <= Head(s) <= |s.outbound| && 0 <= Tail(s) <= |s.inbound|
            && s.inbound[..Tail(s)] == s.outbound[..Head(s)] + s.ring.Contents()
  {
    InvStart(mem, ask);
    InvRun(Start(mem, ask), es);
    ContentsAreHistory(Run(Start(mem, ask), es));
  }

  lemma ContentsAreHistory(s: Echo)
    requires Inv(s)
    ensures s.ring.Contents() == s.inbound[Head(s)..Tail(s)]
    ensures s.inbound[..Tail(s)] == s.outbound[..Head(s)] + s.ring.Contents()
  {
    hide Cell, Wrap, UnboundedSequence, ReadOk, WriteOk, Ring.Contents, Holds;
    ContentsHeld(s);
    assert s.outbound[..Head(s)] == s.inbound[..Head(s)];
  }

  lemma ContentsHeld(s: Echo)
    requires Counters(s) && Bytes(s)
    ensures s.ring.Contents() == s.inbound[Head(s)..Tail(s)]
  {
    hide Cell, Wrap;
    SizeIsDifference(s);
    hide Ring.Size;
    forall i | 0 <= i < s.ring.Size()
      ensures s.ring.Contents()[i] == s.inbound[Head(s) + i]
    {
      CellOfWrapped(Head(s), i, s.ring.cap);
    }
  }

  /**
   * The physical slices of `data()` show exactly the bytes received and not yet consumed if and
   * only if the buffer is not full at an unaligned head; otherwise a slice leaves the array.
   */
  lemma DataSlicesExact(mem: seq<byte>, ask: nat, es: seq<Event>)
    requires 0 < |mem| < TWO64 && WholeLaps(|mem|) && 0 < ask <= |mem|
    requires CanRun(Start(mem, ask), es)
    ensures var s := Run(Start(mem, ask), es);
            var slices := s.ring.Data();
            && 0 <= Head(s) <= |s.outbound| && 0 <= Tail(s) <= |s.inbound|
            && (InBounds(s.ring.cap, slices) <==> InDomain(s.ring.cap, s.ring.head, s.ring.Size()))
            && (InBounds(s.ring.cap, slices) ==>
                  && (forall i :: 0 <= i < |Cells(slices)| ==> Cells(slices)[i] < |s.ring.mem|)
                  && s.inbound[..Tail(s)] == s.outbound[..Head(s)] + Load(s.ring.mem, Cells(slices)))
  {
    InvStart(mem, ask);
    InvRun(Start(mem, ask), es);
    var s := Run(Start(mem, ask), es);
    ContentsAreHistory(s);
    DataShowsContents(s.ring);
    SizeIsDifference(s);
    if !InDomain(s.ring.cap, s.ring.head, s.ring.Size()) {
      FullUnaligned(s.ring);
    }
  }

  /** A full ring at an unaligned head is shown as one slice that leaves the array. */
  lemma FullUnaligned(r: Ring)
    requires r.Valid() && WholeLaps(r.cap) && r.Size() == r.cap && Cell(r.head, r.cap) != 0
    ensures r.Data() == [Slice(Cell(r.head, r.cap), r.cap)] && !InBounds(r.cap, r.Data())
  {
    CellBehindTail(r, 0);
    CellStep(r.head, r.cap, r.cap);
    assert r.Data()[0] in r.Data();
  }

  /**
   * While the session is open, the area prepared for the outstanding read and the snapshot of the
   * outstanding write have no array cell in common, each lies inside the array and visits no
   * cell twice, whatever has been committed or wrapped around since either was begun.
   */
  lemma RegionsDisjoint(mem: seq<byte>, ask: nat, es: seq<Event>)
    requires 0 < |mem| < TWO64 && WholeLaps(|mem|) && 0 < ask <= |mem|
    requires CanRun(Start(mem, ask), es)
    ensures var s := Run(Start(mem, ask), es);
            s.open && s.wr.Some? ==>
              && s.rd.Some?
              && InBounds(s.ring.cap, s.rd.value.slices) && NoRepeat(Cells(s.rd.value.slices))
              && InBounds(s.ring.cap, s.wr.value.slices) && NoRepeat(Cells(s.wr.value.slices))
              && forall c :: c in Cells(s.rd.value.slices) ==> c !in Cells(s.wr.value.slices)
  {
    InvStart(mem, ask);
    InvRun(Start(mem, ask), es);
    var s := Run(Start(mem, ask), es);
    if s.open && s.wr.Some? {
      DisjointInState(s);
    }
  }

  lemma DisjointInState(s: Echo)
    requires Inv(s) && s.open && s.wr.Some?
    ensures InBounds(s.ring.cap, s.rd.value.slices) && NoRepeat(Cells(s.rd.value.slices))
    ensures InBounds(s.ring.cap, s.wr.value.slices) && NoRepeat(Cells(s.wr.value.slices))
    ensures forall c :: c in Cells(s.rd.value.slices) ==> c !in Cells(s.wr.value.slices)
  {
    hide Cell, Wrap, Cells, UnboundedSequence;
    ReadCells(s);
    WriteCells(s);
    var r, w, cap := s.rd.value, s.wr.value, s.ring.cap;
    WindowNoRepeat(cap, Tail(s), r.want);
    WindowNoRepeat(cap, Head(s), w.want);
    forall i | 0 <= i < w.want
      ensures WindowCells(cap, Head(s), w.want)[i] !in WindowCells(cap, Tail(s), r.want)
    {
      OldPositionKept(cap, Head(s) + i, Tail(s), r.want);
    }
  }

  /**
   * While the session is open, no window that `prepare` or `data` was asked for (it is the window
   * of the operation begun with it) has the whole capacity at an unaligned start; and only a
   * read begun on an empty buffer asks for the whole capacity.
   */
  lemma WindowsInDomain(mem: seq<byte>, ask: nat, es: seq<Event>)
    requires 0 < |mem| < TWO64 && WholeLaps(|mem|) && 0 < ask <= |mem|
    requires CanRun(Start(mem, ask), es)
    ensures var s := Run(Start(mem, ask), es);
            && (s.rd.Some? ==> InDomain(|mem|, s.rd.value.begin, s.rd.value.want))
            && (s.open && s.wr.Some? ==> InDomain(|mem|, s.wr.value.begin, s.wr.value.want))
            && (s.rd.Some? && s.rd.value.want == |mem| ==> s.outbound == [] && s.rd.value.begin == 0)
  {
    InvStart(mem, ask);
    FirstReadStart(mem, ask);
    hide Start, CanRun, Run, Inv, FirstRead;
    InvRun(Start(mem, ask), es);
    FirstReadRun(Start(mem, ask), es);
    WindowsNow(Run(Start(mem, ask), es));
  }

  lemma FirstReadStart(mem: seq<byte>, ask: nat)
    requires 0 < |mem| < TWO64
    ensures FirstRead(Start(mem, ask))
  {
    hide MakeSequence;
  }

  lemma WindowsNow(s: Echo)
    requires Inv(s) && FirstRead(s)
    ensures s.rd.Some? ==> InDomain(s.ring.cap, s.rd.value.begin, s.rd.value.want)
    ensures s.open && s.wr.Some? ==> InDomain(s.ring.cap, s.wr.value.begin, s.wr.value.want)
    ensures s.rd.Some? && s.rd.value.want == s.ring.cap ==> s.outbound == [] && s.rd.value.begin == 0
  {
    hide Cell, Wrap, UnboundedSequence, Bytes;
    CellOfWrapped(Head(s), 0, s.ring.cap);
    CellOfWrapped(Tail(s), 0, s.ring.cap);
  }

  /** Only the read of `start` can have the whole capacity: nothing was sent since, nothing committed. */
  ghost predicate FirstRead(s: Echo) {
    s.rd.Some? && s.rd.value.want == s.ring.cap ==> s.rd.value.begin == 0 && s.outbound == [] && s.wr.None?
  }

  lemma FirstReadStep(s: Echo, e: Event)
    requires Inv(s) && FirstRead(s) && Enabled(s, e)
    ensures FirstRead(Step(s, e))
  {
    hide Cell, Wrap, Cells, UnboundedSequence, MakeSequence;
    match e
    case Arrive(chunk) => ArriveEffect(s, chunk);
    case ReadDone(ok, ask) =>
      CommitKeeps(s);
      var s1 := s.(ring := s.ring.Commit(s.rd.value.filled), rd := None);
      SizeIsDifference(s1);
    case Transmit(k) => TransmitEffect(s, k);
    case WriteDone(ok) =>
  }

  lemma {:induction false} FirstReadRun(s: Echo, es: seq<Event>)
    requires Inv(s) && FirstRead(s) && CanRun(s, es)
    ensures FirstRead(Run(s, es))
    decreases |es|
  {
    if es != [] {
      InvStep(s, es[0]);
      FirstReadStep(s, es[0]);
      FirstReadRun(Step(s, es[0]), es[1..]);
    }
  }

  /**
   * No stranded bytes: in every open state a read is outstanding, and the buffer is non-empty
   * exactly when `writing_` is set, exactly when a write is in flight.
   */
  lemma NoStrandedBytes(mem: seq<byte>, ask: nat, es: seq<Event>)
    requires 0 < |mem| < TWO64 && WholeLaps(|mem|) && 0 < ask <= |mem|
    requires CanRun(Start(mem, ask), es)
    ensures var s := Run(Start(mem, ask), es);
            s.open ==>
              && s.rd.Some?
              && (s.ring.Size() != 0 <==> s.writing)
              && (s.writing <==> s.wr.Some?)
  {
    InvStart(mem, ask);
    InvRun(Start(mem, ask), es);
    SizeIsDifference(Run(Start(mem, ask), es));
  }

  /**
   * A read handler that leaves the buffer full begins a read of no bytes, and whatever happens
   * next, the session is closed as soon as that read completes.
   */
  lemma FullBufferCloses(s: Echo, ask: nat, es: seq<Event>)
    requires Inv(s) && Enabled(s, ReadDone(true, ask)) && s.rd.value.filled != 0
    requires var s' := Step(s, ReadDone(true, ask)); s'.ring.Size() == s'.ring.cap
    requires CanRun(Step(s, ReadDone(true, ask)), es)
    ensures var s' := Step(s, ReadDone(true, ask)); s'.rd.Some? && s'.rd.value.want == 0
    ensures Run(Step(s, ReadDone(true, ask)), es).open ==> forall e :: e in es ==> !e.ReadDone?
  {
    var s' := Step(s, ReadDone(true, ask));
    InvStep(s, ReadDone(true, ask));
    AsksNothing(s, ask);
    hide Step, Enabled, Inv;
    ZeroReadRun(s', es);
  }

  lemma AsksNothing(s: Echo, ask: nat)
    requires Inv(s) && Enabled(s, ReadDone(true, ask)) && s.rd.value.filled != 0
    requires Inv(Step(s, ReadDone(true, ask)))
    requires var s' := Step(s, ReadDone(true, ask)); s'.ring.Size() == s'.ring.cap
    ensures var s' := Step(s, ReadDone(true, ask)); s'.rd.Some? && s'.rd.value.want == 0
  {
    hide Cell, Wrap, UnboundedSequence, MakeSequence, Counters, Bytes, ReadOk, WriteOk;
    assert Step(s, ReadDone(true, ask)).ring == s.ring.Commit(s.rd.value.filled);
  }

  lemma {:induction false} ZeroReadRun(s: Echo, es: seq<Event>)
    requires Inv(s) && CanRun(s, es) && s.rd.Some? && s.rd.value.want == 0
    ensures Run(s, es).open ==> forall e :: e in es ==> !e.ReadDone?
    decreases |es|
  {
    if es != [] {
      RunUnfold(s, es);
      InvStep(s, es[0]);
      ZeroReadStep(s, es[0]);
      hide Step, Enabled, Inv, Run, CanRun;
      var s' := Step(s, es[0]);
      if es[0].ReadDone? {
        ClosedRun(s', es[1..]);
      } else {
        ZeroReadRun(s', es[1..]);
        assert forall e :: e in es ==> e == es[0] || e in es[1..];
      }
    }
  }

  lemma ZeroReadStep(s: Echo, e: Event)
    requires Inv(s) && Enabled(s, e) && s.rd.Some? && s.rd.value.want == 0
    ensures var s' := Step(s, e);
            if e.ReadDone? then !s'.open else s'.rd.Some? && s'.rd.value.want == 0
  {
    if e.Arrive? {
      ArriveEffect(s, e.chunk);
    }
  }

  lemma {:induction false} ClosedRun(s: Echo, es: seq<Event>)
    requires s.ring.Valid() && CanRun(s, es) && !s.open
    ensures !Run(s, es).open
    decreases |es|
  {
    if es != [] {
      ClosedRun(Step(s, es[0]), es[1..]);
    }
  }

  lemma {:induction false} RunAppend(s: Echo, es: seq<Event>, fs: seq<Event>)
    requires s.ring.Valid() && CanRun(s, es) && CanRun(Run(s, es), fs)
    ensures CanRun(s, es + fs) && Run(s, es + fs) == Run(Run(s, es), fs)
    decreases |es|
  {
    hide Step, Enabled;
    if es == [] {
      assert es + fs == fs;
    } else {
      RunUnfold(s, es);
      hide Run, CanRun;
      RunAppend(Step(s, es[0]), es[1..], fs);
      RunFirst(s, es[0], es[1..] + fs);
      assert es + fs == [es[0]] + (es[1..] + fs);
    }
  }

  lemma RunUnfold(s: Echo, es: seq<Event>)
    requires s.ring.Valid() && es != [] && CanRun(s, es)
    ensures Enabled(s, es[0]) && CanRun(Step(s, es[0]), es[1..])
    ensures Run(s, es) == Run(Step(s, es[0]), es[1..])
  {
    hide Step, Enabled;
  }

  lemma RunFirst(s: Echo, e: Event, es: seq<Event>)
    requires s.ring.Valid() && Enabled(s, e) && CanRun(Step(s, e), es)
    ensures CanRun(s, [e] + es) && Run(s, [e] + es) == Run(Step(s, e), es)
  {
    hide Step, Enabled;
    assert ([e] + es)[1..] == es;
  }

  lemma RunOne(s: Echo, e: Event)
    requires s.ring.Valid() && Enabled(s, e)
    ensures CanRun(s, [e]) && Run(s, [e]) == Step(s, e)
  {
    assert [e][1..] == [];
  }

  /** What is left of the outstanding write can be sent, and then its handler begins the next one. */
  lemma FinishWrite(s: Echo) returns (es: seq<Event>)
    requires Inv(s) && s.open && s.wr.Some?
    ensures |es| == 2 && CanRun(s, es)
    ensures 0 <= Head(s) && Head(s) + s.wr.value.want <= |s.inbound|
    ensures var s' := Run(s, es);
            && Inv(s') && s'.open && s'.inbound == s.inbound && Tail(s') == Tail(s)
            && s'.outbound == s.inbound[..Head(s) + s.wr.value.want]
            && (s'.wr.Some? ==> s'.wr.value.sent == 0 && s'.wr.value.want == Tail(s) - |s'.outbound|)
            && (s'.wr.None? ==> |s'.outbound| == Tail(s))
  {
    hide Cell, Wrap, Cells, UnboundedSequence, Step, Run, CanRun, Enabled, Counters, Bytes, ReadOk, WriteOk;
    var op := s.wr.value;
    RestOfWrite(s);
    var k := op.want - op.sent;
    TransmitEffect(s, k);
    InvStep(s, Transmit(k));
    var s1 := Step(s, Transmit(k));
    AllSent(s, s1);
    es := [Transmit(k)] + [WriteDone(true)];
    RunOne(s, Transmit(k));
    RunOne(s1, WriteDone(true));
    RunAppend(s, [Transmit(k)], [WriteDone(true)]);
  }

  lemma RestOfWrite(s: Echo)
    requires Inv(s) && s.open && s.wr.Some?
    ensures s.wr.value.sent <= s.wr.value.want
    ensures Enabled(s, Transmit(s.wr.value.want - s.wr.value.sent))
    ensures |s.outbound| == Head(s) + s.wr.value.sent && Head(s) + s.wr.value.want <= |s.inbound|
    ensures s.outbound + s.inbound[|s.outbound|..Head(s) + s.wr.value.want] == s.inbound[..Head(s) + s.wr.value.want]
    ensures Head(s) >= 0
  {
    WriteCells(s);
  }

  /** The completion handler of a wholly sent write begins a write of everything else. */
  lemma AllSent(s: Echo, s1: Echo)
    requires Inv(s) && Inv(s1) && s.open && s1.open && s.wr.Some? && s1.wr.Some?
    requires s1.wr.value == s.wr.value.(sent := s.wr.value.want)
    ensures Enabled(s1, WriteDone(true))
    ensures var s2 := Step(s1, WriteDone(true));
            && Inv(s2) && s2.open && s2.inbound == s1.inbound && s2.outbound == s1.outbound && Tail(s2) == Tail(s1)
            && (s2.wr.Some? ==> s2.wr.value.sent == 0 && s2.wr.value.want == Tail(s1) - |s1.outbound|)
            && (s2.wr.None? ==> |s2.outbound| == Tail(s1))
  {
    hide Cell, Wrap, UnboundedSequence, MakeSequence;
    WriteCells(s1);
    InvStep(s1, WriteDone(true));
    var s2 := Step(s1, WriteDone(true));
    SizeIsDifference(s2);
  }

  /**
   * Nothing received is ever out of reach: from every open state at most four more events,
   * completing the outstanding write and the one its handler begins, send every committed byte.
   */
  lemma DrainSendsAll(s: Echo)
    requires Inv(s) && s.open
    ensures 0 <= Tail(s) <= |s.inbound|
    ensures exists es: seq<Event> :: |es| <= 4 && CanRun(s, es) && Run(s, es).outbound == s.inbound[..Tail(s)]
  {
    hide Cell, Wrap, Cells, UnboundedSequence, Step, Enabled, Counters, Bytes, ReadOk, WriteOk;
    TailInRange(s);
    if s.wr.None? {
      NothingPending(s);
      assert CanRun(s, []) && Run(s, []) == s;
    } else {
      var es := FinishWrite(s);
      var s1 := Run(s, es);
      if s1.wr.None? {
        NothingPending(s1);
      } else {
        var fs := FinishWrite(s1);
        RunAppend(s, es, fs);
        SentEverything(s1);
        assert Run(s, es + fs).outbound == s.inbound[..Tail(s)];
      }
    }
  }

  lemma TailInRange(s: Echo)
    requires Inv(s)
    ensures 0 <= Tail(s) <= |s.inbound|
  {
  }

  lemma NothingPending(s: Echo)
    requires Inv(s) && s.open && s.wr.None?
    ensures 0 <= Tail(s) <= |s.inbound| && s.outbound == s.inbound[..Tail(s)]
  {
  }

  lemma SentEverything(s: Echo)
    requires Inv(s) && s.wr.Some? && s.wr.value.sent == 0 && s.wr.value.want == Tail(s) - |s.outbound|
    ensures Head(s) + s.wr.value.want == Tail(s)
  {
  }

  // ---------------------------------------------------------------- the session, from the events alone

  /** The bytes that arrived, and how many left. */
  function Received(es: seq<Event>): seq<byte> {
    if es == [] then []
    else
      var before, last := es[..|es| - 1], es[|es| - 1];
      Received(before) + if last.Arrive? then last.chunk else []
  }

  function Sent(es: seq<Event>): nat {
    if es == [] then 0
    else
      var before, last := es[..|es| - 1], es[|es| - 1];
      Sent(before) + if last.Transmit? then last.k else 0
  }

  /** How many had arrived when a read completed last. */
  function Committed(es: seq<Event>): nat {
    if es == [] then 0
    else
      var before, last := es[..|es| - 1], es[|es| - 1];
      if last.ReadDone? then |Received(before)| else Committed(before)
  }

  /** A read completion without error that brings at least one byte. */
  predicate Brings(before: seq<Event>, e: Event) {
    e.ReadDone? && e.ok && |Received(before)| > Committed(before)
  }

  /** Every read completion so far was one. */
  predicate ReadsGood(es: seq<Event>) {
    es == [] ||
    var before, last := es[..|es| - 1], es[|es| - 1];
    ReadsGood(before) && (last.ReadDone? ==> Brings(before, last))
  }

  predicate WritesGood(es: seq<Event>) {
    WriteDone(false) !in es
  }

  /** A write is begun by a read that brings bytes, and by a write that leaves some; it ends with its completion. */
  predicate WriteUnderWay(es: seq<Event>) {
    es != [] &&
    var before, last := es[..|es| - 1], es[|es| - 1];
    match last
    case ReadDone(_, _) => WriteUnderWay(before) || Brings(before, last)
    case WriteDone(ok) => ok && Sent(before) < Committed(before)
    case _ => WriteUnderWay(before)
  }

  /** The session is what the events call for. */
  ghost predicate Follows(s: Echo, es: seq<Event>) {
    && s.inbound == Received(es) && |s.outbound| == Sent(es) && Tail(s) == Committed(es)
    && (s.open <==> ReadsGood(es) && WritesGood(es))
    && (s.rd.Some? <==> ReadsGood(es))
    && (s.wr.Some? <==> WriteUnderWay(es))
  }

  lemma Next(es: seq<Event>, e: Event)
    ensures Received(es + [e]) == Received(es) + if e.Arrive? then e.chunk else []
    ensures Sent(es + [e]) == Sent(es) + if e.Transmit? then e.k else 0
    ensures Committed(es + [e]) == if e.ReadDone? then |Received(es)| else Committed(es)
    ensures ReadsGood(es + [e]) <==> ReadsGood(es) && (e.ReadDone? ==> Brings(es, e))
    ensures WritesGood(es + [e]) <==> WritesGood(es) && e != WriteDone(false)
    ensures WriteUnderWay(es + [e]) <==>
              match e
              case ReadDone(_, _) => WriteUnderWay(es) || Brings(es, e)
              case WriteDone(ok) => ok && Sent(es) < Committed(es)
              case _ => WriteUnderWay(es)
  {
    assert (es + [e])[..|es|] == es;
  }

  /** What a read completion leaves behind. */
  lemma ReadDoneOutcome(s: Echo, ok: bool, ask: nat)
    requires Inv(s) && Enabled(s, ReadDone(ok, ask)) && Inv(Step(s, ReadDone(ok, ask)))
    ensures var s', good := Step(s, ReadDone(ok, ask)), ok && s.rd.value.filled > 0;
            && s'.inbound == s.inbound && s'.outbound == s.outbound && Tail(s') == |s.inbound|
            && s'.open == (s.open && good) && s'.rd.Some? == good && s'.wr.Some? == (s.wr.Some? || good)
            && (good ==> s'.rd.value.want == ask)
  {
    hide Counters, Bytes, ReadOk, WriteOk, AskOk, Ring.Prepare, Ring.Size, Ring.Data;
  }

  lemma WriteDoneOutcome(s: Echo, ok: bool)
    requires Inv(s) && Enabled(s, WriteDone(ok))
    ensures var s' := Step(s, WriteDone(ok));
            && s'.inbound == s.inbound && s'.outbound == s.outbound && s'.rd == s.rd
            && s'.open == (s.open && ok) && s'.wr.Some? == (ok && |s.outbound| < Tail(s))
  {
    ConsumeKeeps(s);
    SizeIsDifference(s.(ring := s.ring.Consume(s.wr.value.sent), wr := None, writing := false));
    hide Counters, Bytes, ReadOk, WriteOk, Ring.Prepare, Ring.Size, Ring.Data, Cells;
  }

  lemma FollowsNext(s: Echo, es: seq<Event>, e: Event)
    requires Inv(s) && Follows(s, es) && Enabled(s, e) && Inv(Step(s, e))
    ensures Follows(Step(s, e), es + [e])
  {
    Next(es, e);
    hide Step, Counters, Bytes, ReadOk, WriteOk, AskOk, Received, Sent, Committed, ReadsGood, WritesGood, WriteUnderWay;
    match e
    case Arrive(chunk) => ArriveEffect(s, chunk);
    case ReadDone(ok, ask) => ReadDoneOutcome(s, ok, ask);
    case Transmit(k) => TransmitEffect(s, k);
    case WriteDone(ok) => WriteDoneOutcome(s, ok);
  }

  lemma {:induction false} FollowsRun(s: Echo, earlier: seq<Event>, es: seq<Event>)
    requires Inv(s) && Follows(s, earlier) && CanRun(s, es)
    ensures Follows(Run(s, es), earlier + es)
    decreases |es|
  {
    hide Follows, Step, Enabled, Counters, Bytes, ReadOk, WriteOk;
    OneByOne(earlier, es);
    if es != [] {
      InvStep(s, es[0]);
      FollowsNext(s, earlier, es[0]);
      FollowsRun(Step(s, es[0]), earlier + [es[0]], es[1..]);
    }
  }

  /**
   * The session does what the events call for, over every run: it is open if and only if no read
   * completion so far failed or brought nothing and no write completion failed; a read is
   * outstanding if and only if no read completion failed or brought nothing; and a write is in
   * flight exactly from a read that brought bytes, or a write that left some, to its completion.
   */
  lemma RunFollowsEvents(mem: seq<byte>, ask: nat, es: seq<Event>)
    requires 0 < |mem| < TWO64 && WholeLaps(|mem|) && 0 < ask <= |mem|
    requires CanRun(Start(mem, ask), es)
    ensures var s := Run(Start(mem, ask), es);
            && s.inbound == Received(es) && |s.outbound| == Sent(es) && Tail(s) == Committed(es)
            && (s.open <==> ReadsGood(es) && WritesGood(es))
            && (s.rd.Some? <==> ReadsGood(es))
            && (s.wr.Some? <==> WriteUnderWay(es))
  {
    InvStart(mem, ask);
    StartFollows(mem, ask);
    NothingFirst(es);
    hide Inv, Start, Run, CanRun, Received, Sent, Committed, ReadsGood, WritesGood, WriteUnderWay;
    FollowsRun(Start(mem, ask), [], es);
  }

  lemma StartFollows(mem: seq<byte>, ask: nat)
    requires 0 < |mem| < TWO64 && WholeLaps(|mem|) && 0 < ask <= |mem|
    ensures Follows(Start(mem, ask), [])
  {
    InvStart(mem, ask);
    hide Counters, Bytes, ReadOk, WriteOk, Ring.Prepare;
  }

  // ---------------------------------------------------------------- two runs worth knowing

  /** The sizes of a state: all that the runs below depend on. */
  datatype Shape = Shape(received: nat, sent: nat, rd: Option<(nat, nat)>, wr: Option<(nat, nat)>, open: bool)

  function ShapeOf(s: Echo): Shape {
    Shape(|s.inbound|, |s.outbound|,
          if s.rd.Some? then Some((s.rd.value.want, s.rd.value.filled)) else None,
          if s.wr.Some? then Some((s.wr.value.want, s.wr.value.sent)) else None,
          s.open)
  }

  lemma ShapeArrive(s: Echo, chunk: seq<byte>)
    requires Inv(s) && s.open && s.rd.value.filled + |chunk| <= s.rd.value.want
    ensures Enabled(s, Arrive(chunk)) && Inv(Step(s, Arrive(chunk)))
    ensures ShapeOf(Step(s, Arrive(chunk))) ==
            ShapeOf(s).(received := |s.inbound| + |chunk|, rd := Some((s.rd.value.want, s.rd.value.filled + |chunk|)))
  {
    hide Cell, Wrap, Cells, UnboundedSequence, WindowCells, Store, Step;
    assert Enabled(s, Arrive(chunk)) by {
      ReadCells(s);
    }
    InvArrive(s, chunk);
    ArriveEffect(s, chunk);
    hide Inv, Counters, Bytes, ReadOk, WriteOk, Enabled;
  }

  lemma ShapeTransmit(s: Echo, k: nat)
    requires Inv(s) && s.open && s.wr.Some? && s.wr.value.sent + k <= s.wr.value.want
    ensures Enabled(s, Transmit(k)) && Inv(Step(s, Transmit(k)))
    ensures ShapeOf(Step(s, Transmit(k))) ==
            ShapeOf(s).(sent := |s.outbound| + k, wr := Some((s.wr.value.want, s.wr.value.sent + k)))
  {
    hide Cell, Wrap, Cells, UnboundedSequence, WindowCells, Load, Step;
    assert Enabled(s, Transmit(k)) by {
      WriteCells(s);
    }
    InvTransmit(s, k);
    TransmitEffect(s, k);
    hide Inv, Counters, Bytes, ReadOk, WriteOk, Enabled;
  }

  lemma ShapeReadDone(s: Echo, ask: nat)
    requires Inv(s) && s.rd.Some? && s.rd.value.filled > 0
    requires |s.inbound| - Head(s) + ask <= s.ring.cap
    requires |s.inbound| - Head(s) < s.ring.cap ==> ask > 0
    ensures Enabled(s, ReadDone(true, ask)) && Inv(Step(s, ReadDone(true, ask)))
    ensures ShapeOf(Step(s, ReadDone(true, ask))) ==
            ShapeOf(s).(rd := Some((ask, 0)),
                        wr := if s.wr.Some? then ShapeOf(s).wr else Some((|s.inbound| - Head(s), 0)))
  {
    hide Cell, Wrap, UnboundedSequence, MakeSequence;
    CommitKeeps(s);
    var s1 := s.(ring := s.ring.Commit(s.rd.value.filled), rd := None);
    SizeIsDifference(s1);
    InvReadDone(s, true, ask);
  }

  lemma ShapeWriteDone(s: Echo, ok: bool)
    requires Inv(s) && s.open && s.wr.Some? && (ok ==> s.wr.value.sent == s.wr.value.want)
    ensures Enabled(s, WriteDone(ok)) && Inv(Step(s, WriteDone(ok)))
    ensures ok && |s.outbound| == Tail(s) ==> ShapeOf(Step(s, WriteDone(ok))) == ShapeOf(s).(wr := None)
    ensures !ok ==> ShapeOf(Step(s, WriteDone(ok))) == ShapeOf(s).(wr := None, open := false)
  {
    hide Cell, Wrap, UnboundedSequence, MakeSequence;
    WriteCells(s);
    ConsumeKeeps(s);
    SizeIsDifference(s.(ring := s.ring.Consume(s.wr.value.sent), wr := None, writing := false));
    InvWriteDone(s, ok);
  }

  /** Some run leads from `s` to `t`. */
  ghost predicate Reaches(s: Echo, t: Echo)
    requires s.ring.Valid()
  {
    exists es :: CanRun(s, es) && Run(s, es) == t
  }

  lemma ReachesStep(s: Echo, t: Echo, e: Event)
    requires s.ring.Valid() && t.ring.Valid() && Reaches(s, t) && Enabled(t, e)
    ensures Reaches(s, Step(t, e))
  {
    var es :| CanRun(s, es) && Run(s, es) == t;
    RunOne(t, e);
    RunAppend(s, es, [e]);
  }

  lemma ReachesStart(mem: seq<byte>)
    requires 2 <= |mem| < TWO64 && WholeLaps(|mem|)
    ensures var s := Start(mem, |mem|);
            Inv(s) && Reaches(s, s) && ShapeOf(s) == Shape(0, 0, Some((|mem|, 0)), None, true)
  {
    var s := Start(mem, |mem|);
    InvStart(mem, |mem|);
    assert CanRun(s, []) && Run(s, []) == s;
    NextPrepare(Echo(Ring(|mem|, mem, 0, 0), None, None, false, true, false, [], []), |mem|);
  }

  /** One byte echoed, a second byte being written, the next read open for all but one cell. */
  lemma ReachTwoBytes(mem: seq<byte>) returns (s: Echo)
    requires 2 <= |mem| < TWO64 && WholeLaps(|mem|)
    ensures s.ring.Valid() && s.ring.cap == |mem| && Inv(s) && Reaches(Start(mem, |mem|), s)
    ensures ShapeOf(s) == Shape(2, 1, Some((|mem| - 1, 0)), Some((1, 0)), true)
  {
    hide Step, Run, CanRun, Enabled, Reaches, Cell, Wrap, Start, Counters, Bytes, ReadOk, WriteOk;
    var s0 := Start(mem, |mem|);
    ReachesStart(mem);
    ShapeArrive(s0, Zeros(1));
    ReachesStep(s0, s0, Arrive(Zeros(1)));
    var s1 := Step(s0, Arrive(Zeros(1)));
    ShapeReadDone(s1, |mem| - 1);
    ReachesStep(s0, s1, ReadDone(true, |mem| - 1));
    var s2 := Step(s1, ReadDone(true, |mem| - 1));
    ShapeTransmit(s2, 1);
    ReachesStep(s0, s2, Transmit(1));
    var s3 := Step(s2, Transmit(1));
    ShapeWriteDone(s3, true);
    ReachesStep(s0, s3, WriteDone(true));
    var s4 := Step(s3, WriteDone(true));
    ShapeArrive(s4, Zeros(1));
    ReachesStep(s0, s4, Arrive(Zeros(1)));
    var s5 := Step(s4, Arrive(Zeros(1)));
    ShapeReadDone(s5, |mem| - 1);
    ReachesStep(s0, s5, ReadDone(true, |mem| - 1));
    s := Step(s5, ReadDone(true, |mem| - 1));
  }

  /** And then every cell but the one being written holds an uncommitted byte. */
  lemma ReachAlmostFull(mem: seq<byte>) returns (s: Echo)
    requires 2 <= |mem| < TWO64 && WholeLaps(|mem|)
    ensures s.ring.Valid() && s.ring.cap == |mem| && Inv(s) && Reaches(Start(mem, |mem|), s)
    ensures ShapeOf(s) == Shape(|mem| + 1, 1, Some((|mem| - 1, |mem| - 1)), Some((1, 0)), true)
  {
    hide Step, Run, CanRun, Enabled, Reaches, Cell, Wrap, Start, Counters, Bytes, ReadOk, WriteOk;
    var t := ReachTwoBytes(mem);
    ShapeArrive(t, Zeros(|mem| - 1));
    ReachesStep(Start(mem, |mem|), t, Arrive(Zeros(|mem| - 1)));
    s := Step(t, Arrive(Zeros(|mem| - 1)));
  }

  /** `DataSlicesExact` needs its condition: an open session can be full at an unaligned head. */
  lemma OpenAndMissliced(mem: seq<byte>)
    requires 2 <= |mem| < TWO64 && WholeLaps(|mem|)
    ensures exists s: Echo :: s.ring.Valid() && Reaches(Start(mem, |mem|), s) && s.open && !InBounds(|mem|, s.ring.Data())
  {
    var t := ReachAlmostFull(mem);
    ShapeReadDone(t, 0);
    ReachesStep(Start(mem, |mem|), t, ReadDone(true, 0));
    var s := Step(t, ReadDone(true, 0));
    FullAtOne(s);
  }

  lemma FullAtOne(s: Echo)
    requires Inv(s) && s.ring.cap >= 2 && Head(s) == 1 && Tail(s) == s.ring.cap + 1
    ensures s.ring.Data() == [Slice(1, s.ring.cap)] && !InBounds(s.ring.cap, s.ring.Data())
  {
    SizeIsDifference(s);
    assert s.ring.head == 1;
    FullUnaligned(s.ring);
  }

  /**
   * `WindowsInDomain` needs the session to be open: after a failed write has closed it, a read
   * completion that was already on its way makes `write` ask for the whole capacity at an
   * unaligned start, and the snapshot leaves the array.
   */
  lemma ClosedAndMissliced(mem: seq<byte>)
    requires 2 <= |mem| < TWO64 && WholeLaps(|mem|)
    ensures exists s: Echo :: s.ring.Valid() && Reaches(Start(mem, |mem|), s) && !s.open
                              && s.wr.Some? && !InBounds(|mem|, s.wr.value.slices)
  {
    var s := ReachSnapshotOfAll(mem);
    SnapshotOfAll(s);
  }

  /** A failed write closes the session, and the read completion under way begins another write. */
  lemma ReachSnapshotOfAll(mem: seq<byte>) returns (s: Echo)
    requires 2 <= |mem| < TWO64 && WholeLaps(|mem|)
    ensures s.ring.Valid() && s.ring.cap == |mem| && Inv(s) && Reaches(Start(mem, |mem|), s)
    ensures ShapeOf(s) == Shape(|mem| + 1, 1, Some((0, 0)), Some((|mem|, 0)), false)
  {
    hide Step, Run, CanRun, Enabled, Reaches, Cell, Wrap, Start, Counters, Bytes, ReadOk, WriteOk;
    var t := ReachAlmostFull(mem);
    ShapeWriteDone(t, false);
    ReachesStep(Start(mem, |mem|), t, WriteDone(false));
    var u := Step(t, WriteDone(false));
    ShapeReadDone(u, 0);
    ReachesStep(Start(mem, |mem|), u, ReadDone(true, 0));
    s := Step(u, ReadDone(true, 0));
  }

  /** A write begun for all of a full buffer that starts at cell 1 leaves the array. */
  lemma SnapshotOfAll(s: Echo)
    requires Inv(s) && s.ring.cap >= 2 && s.wr.Some?
    requires Head(s) == 1 && Tail(s) == s.ring.cap + 1 && s.wr.value.want == s.ring.cap
    ensures !InBounds(s.ring.cap, s.wr.value.slices)
  {
    hide Bytes, ReadOk;
    FullAtOne(s);
    SizeIsDifference(s);
    WrappedSlices(s.ring.cap, Head(s), Tail(s));
  }

  // ---------------------------------------------------------------- the session as an object

  /** The capacity the program uses makes whole laps of the 64-bit counters. */
  lemma ProgramCapacity()
    ensures WholeLaps(CAPACITY)
  {
    CellIsRemainder(TWO64, CAPACITY);
  }

  const CAPACITY: nat := 65536

  class Session {
    const buffer: CircularBuffer
    var writing: bool
    var socketOpen: bool
    // the operations the I/O service holds for this session
    var pendingRead: Option<ReadOp>
    var pendingWrite: Option<WriteOp>
    // what went through the socket
    ghost var inbound: seq<byte>
    ghost var outbound: seq<byte>

    ghost function State(): (s: Echo)
      reads this, buffer, buffer.buffer
    {
      Echo(buffer.Value(), pendingRead, pendingWrite, writing, socketOpen, false, inbound, outbound)
    }

    ghost predicate Valid()
      reads this, buffer, buffer.buffer
    {
      buffer.Valid() && Inv(State())
    }

    constructor ()
      ensures fresh(buffer) && fresh(buffer.buffer) && buffer.Valid() && buffer.buffer.Length == CAPACITY
      ensures State() == Echo(Ring(CAPACITY, buffer.buffer[..], 0, 0), None, None, false, true, false, [], [])
    {
      buffer := new CircularBuffer(CAPACITY);
      writing, socketOpen := false, true;
      pendingRead, pendingWrite := None, None;
      inbound, outbound := [], [];
    }

    method Begin(ask: nat)
      requires buffer.Valid() && buffer.buffer.Length == CAPACITY && 0 < ask <= CAPACITY
      requires State() == Echo(Ring(CAPACITY, buffer.buffer[..], 0, 0), None, None, false, true, false, [], [])
      modifies this
      ensures Valid() && State() == Start(buffer.buffer[..], ask)
    {
      ProgramCapacity();
      InvStart(buffer.buffer[..], ask);
      Read(ask);
    }

    /** `async_read`: prepares `ask` bytes and leaves the operation with the I/O service. */
    method Read(ask: nat)
      requires buffer.Valid() && !BeginRead(State(), ask).fault
      modifies this`pendingRead
      ensures State() == BeginRead(old(State()), ask)
    {
      var slices := buffer.Prepare(ask);
      pendingRead := Some(ReadOp(buffer.tail, ask, slices.value, 0));
    }

    /** `async_write`: takes the snapshot `data()` and leaves the operation with the I/O service. */
    method Write()
      requires buffer.Valid() && !BeginWrite(State()).fault
      modifies this`writing, this`pendingWrite
      ensures State() == BeginWrite(old(State()))
    {
      writing := true;
      var size := buffer.Size();
      var slices := buffer.Data();
      pendingWrite := Some(WriteOp(buffer.head, size, slices, 0));
    }

    method Close()
      modifies this`socketOpen
      ensures State() == old(State()).(open := false)
    {
      socketOpen := false;
    }

    method OnRead(ok: bool, bytesTransferred: nat, ask: nat)
      requires buffer.Valid() && !OnReadStep(State(), ok, bytesTransferred, ask).fault
      modifies this`writing, this`pendingWrite, this`pendingRead, this`socketOpen
      ensures State() == OnReadStep(old(State()), ok, bytesTransferred, ask)
    {
      if ok && bytesTransferred != 0 {
        if !writing {
          Write();
        }
        Read(ask);
      } else {
        Close();
      }
    }

    method OnWrite(ok: bool)
      requires buffer.Valid() && !OnWriteStep(State(), ok).fault
      modifies this`writing, this`pendingWrite, this`socketOpen
      ensures State() == OnWriteStep(old(State()), ok)
    {
      writing := false;
      if ok {
        var size := buffer.Size();
        if size != 0 {
          Write();
        }
      } else {
        Close();
      }
    }

    /** The composed read completes: it commits what arrived and runs the handler. */
    method CompleteRead(ok: bool, ask: nat)
      requires Valid() && Enabled(State(), ReadDone(ok, ask))
      modifies this, buffer
      ensures Valid() && State() == Step(old(State()), ReadDone(ok, ask))
      ensures socketOpen == (old(socketOpen) && ok && old(pendingRead.value.filled) > 0)
    {
      InvStep(State(), ReadDone(ok, ask));
      ReadDoneOutcome(State(), ok, ask);
      hide OnReadStep, BeginRead, BeginWrite, Cell, Wrap, Counters, Bytes, ReadOk, WriteOk, AskOk;
      var n := pendingRead.value.filled;
      buffer.Commit(n);
      pendingRead := None;
      OnRead(ok, n, ask);
    }

    /** The composed write completes: it consumes what was sent and runs the handler. */
    method CompleteWrite(ok: bool)
      requires Valid() && Enabled(State(), WriteDone(ok))
      modifies this, buffer
      ensures Valid() && State() == Step(old(State()), WriteDone(ok))
      ensures socketOpen == (old(socketOpen) && ok)
    {
      InvStep(State(), WriteDone(ok));
      WriteDoneOutcome(State(), ok);
      hide OnWriteStep, BeginRead, BeginWrite, Cell, Wrap, Counters, Bytes, ReadOk, WriteOk;
      buffer.Consume(pendingWrite.value.sent);
      pendingWrite := None;
      OnWrite(ok);
    }

    /** The operating system stores a chunk in the slices of the outstanding read. */
    method StoreArriving(chunk: seq<byte>)
      requires Valid() && Enabled(State(), Arrive(chunk))
      modifies this`pendingRead, this`inbound, buffer.buffer
      ensures Valid() && State() == Step(old(State()), Arrive(chunk))
    {
      hide Cell, Wrap, Cells, Store, UnboundedSequence, Counters, Bytes, ReadOk, WriteOk, WindowCells;
      InvStep(State(), Arrive(chunk));
      ReadCells(State());
      hide Inv;
      var op := pendingRead.value;
      CellsInBounds(buffer.buffer.Length, op.slices);
      buffer.StoreCells(Cells(op.slices)[op.filled..op.filled + |chunk|], chunk);
      pendingRead := Some(op.(filled := op.filled + |chunk|));
      inbound := inbound + chunk;
    }

    /** The operating system sends `k` bytes out of the slices of the outstanding write. */
    method SendOutgoing(k: nat) returns (sent: seq<byte>)
      requires Valid() && Enabled(State(), Transmit(k))
      modifies this`pendingWrite, this`outbound
      ensures Valid() && State() == Step(old(State()), Transmit(k))
      ensures outbound == old(outbound) + sent && outbound <= inbound
    {
      hide Cell, Wrap, Cells, Load, UnboundedSequence, ReadOk, WriteOk, WindowCells;
      InvStep(State(), Transmit(k));
      WriteCells(State());
      var op := pendingWrite.value;
      CellsInBounds(buffer.buffer.Length, op.slices);
      sent := buffer.LoadCells(Cells(op.slices)[op.sent..op.sent + k]);
      pendingWrite := Some(op.(sent := op.sent + k));
      outbound := outbound + sent;
    }
  }
}

/**
 * The circular byte buffer: two ever-growing 64-bit counters over a fixed array,
 * and a window of it shown as one or two physical slices.
 */
module CircularBuffers {
  import opened Arith
  import opened Wrappers

  /** A physical slice of the array: `len` cells from `off` on. */
  datatype Slice = Slice(off: nat, len: nat)

  // ---------------------------------------------------------------- slices

  function SliceCells(s: Slice): seq<nat> {
    seq(s.len, i requires 0 <= i < s.len => s.off + i)
  }

  /** The array indices a slice sequence visits, in order. */
  function Cells(slices: seq<Slice>): seq<nat> {
    if slices == [] then [] else SliceCells(slices[0]) + Cells(slices[1..])
  }

  predicate InBounds(cap: nat, slices: seq<Slice>) {
    forall s :: s in slices ==> s.off + s.len <= cap
  }

  ghost predicate NoRepeat(cells: seq<nat>) {
    forall i, j :: 0 <= i < j < |cells| ==> cells[i] != cells[j]
  }

  /** The logical window: `size` consecutive positions from `begin`, modulo the capacity. */
  function WindowCells(cap: nat, begin: nat, size: nat): (cells: seq<nat>)
    requires cap > 0
    ensures |cells| == size && forall i :: 0 <= i < |cells| ==> cells[i] < cap
  {
    var cells := seq<nat>(size, i requires 0 <= i < size => Cell(begin + i, cap));
    assert forall i :: 0 <= i < size ==> cells[i] == Cell(begin + i, cap);
    cells
  }

  /** The private slicing function, on 64-bit counters as the program computes it. */
  function MakeSequence(cap: nat, begin: nat, end: nat): seq<Slice>
    requires 0 < cap < TWO64 && begin < TWO64 && end < TWO64
  {
    var size := Minus(end, begin);
    var b := Cell(begin, cap);
    var e := Cell(end, cap);
    if b <= e then
      [Slice(b, size)]
    else
      var ending := cap - b;
      [Slice(b, ending), Slice(0, Minus(size, ending))]
  }

  /** The same slicing on counters that never wrap. */
  function UnboundedSequence(cap: nat, begin: nat, end: nat): seq<Slice>
    requires cap > 0 && begin <= end
  {
    var size := end - begin;
    var b := Cell(begin, cap);
    if b <= Cell(end, cap) then
      [Slice(b, size)]
    else
      LoopedIsLong(cap, begin, end);
      [Slice(b, cap - b), Slice(0, size - (cap - b))]
  }

  /** The windows the slicing gets right. */
  predicate InDomain(cap: nat, begin: nat, size: nat)
    requires cap > 0
  {
    size < cap || (size == cap && Cell(begin, cap) == 0)
  }

  lemma LoopedIsLong(cap: nat, begin: nat, end: nat)
    requires cap > 0 && begin <= end && Cell(end, cap) < Cell(begin, cap)
    ensures end - begin >= cap - Cell(begin, cap)
  {
    var size := end - begin;
    if size < cap {
      CellStep(begin, size, cap);
      assert begin + size == end;
    }
  }

  /** With a capacity that divides 2^64, slices of wrapped counters are slices of unbounded ones. */
  lemma WrappedSlices(cap: nat, begin: nat, end: nat)
    requires 0 < cap < TWO64 && WholeLaps(cap) && begin <= end && end - begin < TWO64
    ensures MakeSequence(cap, Wrap(begin), Wrap(end)) == UnboundedSequence(cap, begin, end)
  {
    var size := end - begin;
    WrapDifference(begin, end);
    assert Cell(Wrap(begin), cap) == Cell(begin, cap) by { CellOfWrapped(begin, 0, cap); }
    assert Cell(Wrap(end), cap) == Cell(end, cap) by { CellOfWrapped(end, 0, cap); }
    if Cell(end, cap) < Cell(begin, cap) {
      LoopedIsLong(cap, begin, end);
    }
  }

  /** Divisibility is also necessary: otherwise the counters part ways at the first overflow. */
  lemma WrappedSlicesExact(cap: nat)
    requires 0 < cap < TWO64
    ensures (forall begin: nat, end: nat :: begin <= end && end - begin < TWO64 ==>
               MakeSequence(cap, Wrap(begin), Wrap(end)) == UnboundedSequence(cap, begin, end))
            <==> WholeLaps(cap)
  {
    if WholeLaps(cap) {
      forall begin: nat, end: nat | begin <= end && end - begin < TWO64
        ensures MakeSequence(cap, Wrap(begin), Wrap(end)) == UnboundedSequence(cap, begin, end)
      {
        WrappedSlices(cap, begin, end);
      }
    } else {
      assert UnboundedSequence(cap, TWO64, TWO64)[0].off == Cell(TWO64, cap);
      assert MakeSequence(cap, Wrap(TWO64), Wrap(TWO64))[0].off == Cell(0, cap);
    }
  }

  lemma CellsOfOne(s: Slice)
    ensures Cells([s]) == SliceCells(s)
  {
    assert Cells([s]) == SliceCells(s) + Cells([]);
  }

  lemma CellsOfTwo(s: Slice, t: Slice)
    ensures Cells([s, t]) == SliceCells(s) + SliceCells(t)
  {
    assert [s, t][1..] == [t];
    CellsOfOne(t);
  }

  /** In the domain the cells are the logical window, index by index. */
  lemma SlicesAreWindow(cap: nat, begin: nat, end: nat)
    requires cap > 0 && begin <= end && InDomain(cap, begin, end - begin)
    ensures var slices := UnboundedSequence(cap, begin, end);
            |slices| <= 2 && InBounds(cap, slices) && Cells(slices) == WindowCells(cap, begin, end - begin)
  {
    var size, b := end - begin, Cell(begin, cap);
    CellStep(begin, size, cap);
    assert begin + size == end;
    var window := WindowCells(cap, begin, size);
    forall i | 0 <= i < size
      ensures window[i] == if b + i < cap then b + i else b + i - cap
    {
      CellStep(begin, i, cap);
    }
    if b <= Cell(end, cap) {
      CellsOfOne(Slice(b, size));
      assert SliceCells(Slice(b, size)) == window;
    } else {
      CellsOfTwo(Slice(b, cap - b), Slice(0, size - (cap - b)));
      assert SliceCells(Slice(b, cap - b)) + SliceCells(Slice(0, size - (cap - b))) == window;
    }
  }

  lemma WindowNoRepeat(cap: nat, begin: nat, size: nat)
    requires cap > 0 && size <= cap
    ensures NoRepeat(WindowCells(cap, begin, size))
  {
    var cells := WindowCells(cap, begin, size);
    forall i, j | 0 <= i < j < |cells|
      ensures cells[i] != cells[j]
    {
      CellDistinct(begin + i, begin + j, cap);
    }
  }

  /** Outside the domain a slice leaves the array or a cell is visited twice. */
  lemma OutsideDomain(cap: nat, begin: nat, end: nat)
    requires cap > 0 && begin <= end && !InDomain(cap, begin, end - begin)
    ensures var slices := UnboundedSequence(cap, begin, end);
            !InBounds(cap, slices) || !NoRepeat(Cells(slices))
  {
    var size, b := end - begin, Cell(begin, cap);
    var slices := UnboundedSequence(cap, begin, end);
    assert size == cap ==> begin + cap == end;
    CellStep(begin, cap, cap);
    if b <= Cell(end, cap) {
      assert slices[0] == Slice(b, size);
      assert slices[0] in slices;
    } else {
      assert size > cap;
      var s, t := Slice(b, cap - b), Slice(0, size - (cap - b));
      CellsOfTwo(s, t);
      assert SliceCells(s)[0] == b && SliceCells(t)[b] == b;
      assert Cells(slices)[0] == Cells(slices)[(cap - b) + b];
    }
  }

  /**
   * The exact domain of the slicing: for every pair of counters, the slices stay inside the
   * array and visit no cell twice if and only if the window is smaller than the capacity, or
   * is the whole capacity from an aligned start; and then they are the logical window.
   */
  lemma MakeSequenceExact(cap: nat, begin: nat, end: nat)
    requires 0 < cap < TWO64 && WholeLaps(cap) && begin <= end && end - begin < TWO64
    ensures var slices := MakeSequence(cap, Wrap(begin), Wrap(end));
            && ((InBounds(cap, slices) && NoRepeat(Cells(slices))) <==> InDomain(cap, begin, end - begin))
            && (InDomain(cap, begin, end - begin) ==>
                  |slices| <= 2 && Cells(slices) == WindowCells(cap, begin, end - begin))
  {
    WrappedSlices(cap, begin, end);
    if InDomain(cap, begin, end - begin) {
      SlicesAreWindow(cap, begin, end);
      WindowNoRepeat(cap, begin, end - begin);
    } else {
      OutsideDomain(cap, begin, end);
    }
  }

  // ---------------------------------------------------------------- memory

  /** The bytes found at `cells`. */
  function Load(mem: seq<byte>, cells: seq<nat>): seq<byte>
    requires forall i :: 0 <= i < |cells| ==> cells[i] < |mem|
  {
    seq(|cells|, i requires 0 <= i < |cells| => mem[cells[i]])
  }

  /** The memory after storing `bytes` at `cells`, one after the other. */
  function Store(mem: seq<byte>, cells: seq<nat>, bytes: seq<byte>): (mem': seq<byte>)
    requires |cells| == |bytes|
    requires forall i :: 0 <= i < |cells| ==> cells[i] < |mem|
    ensures |mem'| == |mem|
  {
    if bytes == [] then mem
    else
      var last := |bytes| - 1;
      Store(mem, cells[..last], bytes[..last])[cells[last] := bytes[last]]
  }

  lemma {:induction false} StoreElsewhere(mem: seq<byte>, cells: seq<nat>, bytes: seq<byte>, c: nat)
    requires |cells| == |bytes|
    requires forall i :: 0 <= i < |cells| ==> cells[i] < |mem|
    requires c < |mem| && c !in cells
    ensures Store(mem, cells, bytes)[c] == mem[c]
  {
    if bytes != [] {
      var last := |bytes| - 1;
      assert cells[last] in cells;
      StoreElsewhere(mem, cells[..last], bytes[..last], c);
    }
  }

  lemma {:induction false} StoreAt(mem: seq<byte>, cells: seq<nat>, bytes: seq<byte>, k: nat)
    requires |cells| == |bytes| && NoRepeat(cells)
    requires forall i :: 0 <= i < |cells| ==> cells[i] < |mem|
    requires k < |cells|
    ensures Store(mem, cells, bytes)[cells[k]] == bytes[k]
  {
    var last := |bytes| - 1;
    if k < last {
      assert cells[k] != cells[last];
      assert cells[..last][k] == cells[k];
      StoreAt(mem, cells[..last], bytes[..last], k);
    }
  }

  /** Every byte of `history` from position `lo` on is in the cell of its position. */
  ghost predicate Holds(mem: seq<byte>, lo: nat, history: seq<byte>)
    requires |mem| > 0
  {
    forall i :: lo <= i < |history| ==> mem[Cell(i, |mem|)] == history[i]
  }

  /** Storing the next bytes of a history, less than one lap ahead of `lo`, keeps the older ones. */
  lemma StoreExtends(mem: seq<byte>, lo: nat, history: seq<byte>, chunk: seq<byte>)
    requires |mem| > 0 && Holds(mem, lo, history)
    requires lo <= |history| && |history| + |chunk| <= lo + |mem|
    ensures Holds(Store(mem, WindowCells(|mem|, |history|, |chunk|), chunk), lo, history + chunk)
  {
    hide Store, Cell, WindowCells;
    forall i | lo <= i < |history + chunk|
      ensures Store(mem, WindowCells(|mem|, |history|, |chunk|), chunk)[Cell(i, |mem|)] == (history + chunk)[i]
    {
      if i < |history| {
        assert mem[Cell(i, |mem|)] == history[i];
        OldPositionKept(|mem|, i, |history|, |chunk|);
        StoreElsewhere(mem, WindowCells(|mem|, |history|, |chunk|), chunk, Cell(i, |mem|));
      } else {
        NewPositionStored(mem, |history|, chunk, i - |history|);
      }
    }
  }

  lemma NewPositionStored(mem: seq<byte>, from: nat, chunk: seq<byte>, k: nat)
    requires |chunk| <= |mem| && k < |chunk|
    ensures Store(mem, WindowCells(|mem|, from, |chunk|), chunk)[Cell(from + k, |mem|)] == chunk[k]
  {
    WindowNoRepeat(|mem|, from, |chunk|);
    StoreAt(mem, WindowCells(|mem|, from, |chunk|), chunk, k);
  }

  lemma OldPositionKept(cap: nat, i: nat, from: nat, n: nat)
    requires cap > 0 && i < from && from + n <= i + cap
    ensures Cell(i, cap) !in WindowCells(cap, from, n)
  {
    forall k | 0 <= k < n
      ensures WindowCells(cap, from, n)[k] != Cell(i, cap)
    {
      CellDistinct(i, from + k, cap);
    }
  }

  /** A piece of a window is the window of its own start. */
  lemma SubWindow(cap: nat, begin: nat, size: nat, a: nat, n: nat)
    requires cap > 0 && a + n <= size
    ensures WindowCells(cap, begin, size)[a..a + n] == WindowCells(cap, begin + a, n)
  {
    var piece, window := WindowCells(cap, begin, size)[a..a + n], WindowCells(cap, begin + a, n);
    forall k | 0 <= k < n
      ensures piece[k] == window[k]
    {
      assert begin + (a + k) == begin + a + k;
    }
  }

  /** Loading a window of held positions gives that piece of the history. */
  lemma LoadHeld(mem: seq<byte>, lo: nat, history: seq<byte>, from: nat, n: nat)
    requires |mem| > 0 && Holds(mem, lo, history)
    requires lo <= from && from + n <= |history|
    ensures Load(mem, WindowCells(|mem|, from, n)) == history[from..from + n]
  {
    var cells := WindowCells(|mem|, from, n);
    forall k | 0 <= k < n
      ensures Load(mem, cells)[k] == history[from..from + n][k]
    {
      assert cells[k] == Cell(from + k, |mem|);
    }
  }

  // ---------------------------------------------------------------- the buffer as a value

  /** The fields of the buffer; `head` and `tail` are 64-bit counters. */
  datatype Ring = Ring(cap: nat, mem: seq<byte>, head: nat, tail: nat) {
    predicate Valid() {
      0 < cap < TWO64 && |mem| == cap && head < TWO64 && tail < TWO64
    }

    function Size(): nat
      requires head < TWO64 && tail < TWO64
    {
      Minus(tail, head)
    }

    /** `None` models the `length_error`; the sum wraps before it is compared. */
    function Prepare(n: nat): Option<seq<Slice>>
      requires Valid()
    {
      if Wrap(Size() + n) > cap then None else Some(MakeSequence(cap, tail, Wrap(tail + n)))
    }

    function Commit(n: nat): Ring {
      this.(tail := Wrap(tail + n))
    }

    function Consume(n: nat): Ring {
      this.(head := Wrap(head + n))
    }

    function Data(): seq<Slice>
      requires Valid()
    {
      MakeSequence(cap, head, tail)
    }

    /** What the buffer holds, as a byte sequence. */
    function Contents(): seq<byte>
      requires Valid()
    {
      seq(Size(), i requires 0 <= i < Size() => mem[Cell(head + i, cap)])
    }
  }

  /** The tail is the head advanced by the size, modulo 2^64. */
  lemma TailOfSize(r: Ring)
    requires r.Valid()
    ensures Wrap(r.head + r.Size()) == r.tail
  {
    WrapStep(r.head, r.Size());
  }

  /** Position `k` behind the tail is position `Size() + k` behind the head. */
  lemma CellBehindTail(r: Ring, k: nat)
    requires r.Valid() && WholeLaps(r.cap)
    ensures Cell(r.tail + k, r.cap) == Cell(r.head + (r.Size() + k), r.cap)
  {
    TailOfSize(r);
    CellOfWrapped(r.head + r.Size(), k, r.cap);
    assert r.head + r.Size() + k == r.head + (r.Size() + k);
  }

  lemma SizeAfterCommit(r: Ring, n: nat)
    requires r.Valid() && r.Size() + n < TWO64
    ensures r.Commit(n).Size() == r.Size() + n
  {
    WrapStep(r.tail, n);
  }

  /** Preparing succeeds while there is room, and hands out the cells behind the tail. */
  lemma PrepareCells(r: Ring, n: nat)
    requires r.Valid() && WholeLaps(r.cap)
    requires r.Size() + n <= r.cap && InDomain(r.cap, r.tail, n)
    ensures r.Prepare(n).Some? && InBounds(r.cap, r.Prepare(n).value)
    ensures Cells(r.Prepare(n).value) == WindowCells(r.cap, r.tail, n)
  {
    WrapSmall(r.Size() + n);
    WrapSmall(r.tail);
    MakeSequenceExact(r.cap, r.tail, r.tail + n);
    hide Cells, Cell, Wrap, MakeSequence, NoRepeat, InBounds, InDomain, WindowCells;
  }

  /** The room behind the tail shares no cell with the contents. */
  lemma RoomBehindContents(r: Ring, n: nat, i: nat)
    requires r.Valid() && WholeLaps(r.cap)
    requires r.Size() + n <= r.cap && i < r.Size()
    ensures Cell(r.head + i, r.cap) !in WindowCells(r.cap, r.tail, n)
  {
    forall k | 0 <= k < n
      ensures WindowCells(r.cap, r.tail, n)[k] != Cell(r.head + i, r.cap)
    {
      CellBehindTail(r, k);
      CellDistinct(r.head + i, r.head + (r.Size() + k), r.cap);
    }
  }

  /** What byte `i` of the contents is after `chunk` was stored behind the tail. */
  lemma StoredByte(r: Ring, chunk: seq<byte>, i: nat)
    requires r.Valid() && WholeLaps(r.cap)
    requires r.Size() + |chunk| <= r.cap && i < r.Size() + |chunk|
    ensures Store(r.mem, WindowCells(r.cap, r.tail, |chunk|), chunk)[Cell(r.head + i, r.cap)]
            == (r.Contents() + chunk)[i]
  {
    var target := WindowCells(r.cap, r.tail, |chunk|);
    if i < r.Size() {
      RoomBehindContents(r, |chunk|, i);
      StoreElsewhere(r.mem, target, chunk, Cell(r.head + i, r.cap));
    } else {
      CellBehindTail(r, i - r.Size());
      WindowNoRepeat(r.cap, r.tail, |chunk|);
      StoreAt(r.mem, target, chunk, i - r.Size());
    }
  }

  /** The buffer with `chunk` stored in the cells behind the tail, not yet committed. */
  function Filled(r: Ring, chunk: seq<byte>): (r': Ring)
    requires r.Valid()
    ensures r' == r.(mem := r'.mem) && |r'.mem| == r.cap
  {
    r.(mem := Store(r.mem, WindowCells(r.cap, r.tail, |chunk|), chunk))
  }

  /** Storing behind the tail and committing makes the contents longer by what was stored. */
  lemma StoreCommitAppends(r: Ring, chunk: seq<byte>)
    requires r.Valid() && WholeLaps(r.cap)
    requires r.Size() + |chunk| <= r.cap
    ensures Filled(r, chunk).Commit(|chunk|).Contents() == r.Contents() + chunk
  {
    var r' := Filled(r, chunk).Commit(|chunk|);
    assert r'.Size() == r.Size() + |chunk| by {
      SizeAfterCommit(r, |chunk|);
    }
    forall i | 0 <= i < r'.Size()
      ensures r'.Contents()[i] == (r.Contents() + chunk)[i]
    {
      StoredByte(r, chunk, i);
    }
  }

  /**
   * Writing into a prepared area and committing appends to the contents: `prepare(n)` succeeds,
   * its slices name `n` cells of the array, and after storing `chunk` at the first of them and
   * committing its length the buffer holds its old bytes followed by `chunk`.
   */
  lemma PrepareCommitAppends(r: Ring, n: nat, chunk: seq<byte>)
    requires r.Valid() && WholeLaps(r.cap)
    requires r.Size() + n <= r.cap && |chunk| <= n && InDomain(r.cap, r.tail, n)
    ensures r.Prepare(n).Some?
    ensures var cells := Cells(r.Prepare(n).value);
            && |cells| == n
            && (forall i :: 0 <= i < n ==> cells[i] < r.cap)
            && r.(mem := Store(r.mem, cells[..|chunk|], chunk)).Commit(|chunk|).Contents() == r.Contents() + chunk
  {
    PrepareCells(r, n);
    StoreCommitAppends(r, chunk);
    assert WindowCells(r.cap, r.tail, n)[..|chunk|] == WindowCells(r.cap, r.tail, |chunk|);
  }

  lemma SizeAfterConsume(r: Ring, n: nat)
    requires r.Valid() && n <= r.Size()
    ensures r.Consume(n).Size() == r.Size() - n
  {
    WrapStep(r.head, n);
  }

  /** A consume drops exactly the first `n` bytes. */
  lemma ConsumeDrops(r: Ring, n: nat)
    requires r.Valid() && WholeLaps(r.cap) && n <= r.Size()
    ensures r.Consume(n).Contents() == r.Contents()[n..]
  {
    var r' := r.Consume(n);
    SizeAfterConsume(r, n);
    assert r'.Size() == r.Size() - n && r'.head == Wrap(r.head + n);
    forall i | 0 <= i < r'.Size()
      ensures r'.Contents()[i] == r.Contents()[n..][i]
    {
      CellOfWrapped(r.head + n, i, r.cap);
      assert r.head + n + i == r.head + (n + i);
    }
  }

  /** The slices of `data()` show the contents exactly when the window is in the domain. */
  lemma DataShowsContents(r: Ring)
    requires r.Valid() && WholeLaps(r.cap)
    ensures var cells := Cells(r.Data());
            && ((InBounds(r.cap, r.Data()) && NoRepeat(cells)) <==> InDomain(r.cap, r.head, r.Size()))
            && (InDomain(r.cap, r.head, r.Size()) ==>
                  && (forall i :: 0 <= i < |cells| ==> cells[i] < r.cap)
                  && Load(r.mem, cells) == r.Contents())
  {
    TailOfSize(r);
    WrapSmall(r.head);
    MakeSequenceExact(r.cap, r.head, r.head + r.Size());
    WindowOfContents(r);
    hide Cells, Cell, Wrap, MakeSequence, NoRepeat, InBounds, InDomain, Load, WindowCells, Ring.Contents;
  }

  /** The contents are what lies in the window from head to tail. */
  lemma WindowOfContents(r: Ring)
    requires r.Valid()
    ensures Load(r.mem, WindowCells(r.cap, r.head, r.Size())) == r.Contents()
  {
    hide Cell;
    var window := WindowCells(r.cap, r.head, r.Size());
    forall i | 0 <= i < r.Size()
      ensures Load(r.mem, window)[i] == r.Contents()[i]
    {
      assert window[i] == Cell(r.head + i, r.cap);
    }
  }

  /** The overflow test is the intended one exactly while its sum does not wrap. */
  lemma PrepareCheckExact(r: Ring, n: nat)
    requires r.Valid() && r.Size() <= r.cap && n < TWO64
    ensures (r.Prepare(n).None? <==> r.Size() + n > r.cap) <==> r.Size() + n < TWO64
  {
    WrapStep(r.Size(), n);
  }

  // ---------------------------------------------------------------- the buffer as an object

  class CircularBuffer {
    const buffer: array<byte>
    var head: nat
    var tail: nat

    ghost predicate Valid()
      reads this
    {
      0 < buffer.Length < TWO64 && head < TWO64 && tail < TWO64
    }

    function Value(): Ring
      reads this, buffer
    {
      Ring(buffer.Length, buffer[..], head, tail)
    }

    constructor (capacity: nat)
      requires 0 < capacity < TWO64
      ensures Valid() && fresh(buffer) && buffer.Length == capacity
      ensures head == 0 && tail == 0 && Value().Contents() == []
    {
      buffer := new byte[capacity];
      head, tail := 0, 0;
    }

    method Size() returns (n: nat)
      requires Valid()
      ensures n == Value().Size()
    {
      n := Minus(tail, head);
    }

    method Prepare(n: nat) returns (slices: Option<seq<Slice>>)
      requires Valid()
      ensures slices == Value().Prepare(n)
    {
      var size := Size();
      if Wrap(size + n) > buffer.Length {
        return None;
      }
      return Some(MakeSequence(buffer.Length, tail, Wrap(tail + n)));
    }

    method Commit(n: nat)
      requires Valid()
      modifies this`tail
      ensures Valid() && Value() == old(Value()).Commit(n)
    {
      tail := Wrap(tail + n);
    }

    method Consume(n: nat)
      requires Valid()
      modifies this`head
      ensures Valid() && Value() == old(Value()).Consume(n)
    {
      head := Wrap(head + n);
    }

    /** The bytes that land in the cells of prepared slices. */
    method StoreCells(cells: seq<nat>, bytes: seq<byte>)
      requires |cells| == |bytes| && forall i :: 0 <= i < |cells| ==> cells[i] < buffer.Length
      modifies buffer
      ensures buffer[..] == Store(old(buffer[..]), cells, bytes)
    {
      ghost var before := buffer[..];
      for i := 0 to |bytes|
        invariant buffer[..] == Store(before, cells[..i], bytes[..i])
      {
        buffer[cells[i]] := bytes[i];
        assert cells[..i + 1][..i] == cells[..i] && bytes[..i + 1][..i] == bytes[..i];
      }
      assert cells[..|bytes|] == cells && bytes[..|bytes|] == bytes;
    }

    /** The bytes that leave from the cells of data slices. */
    method LoadCells(cells: seq<nat>) returns (bytes: seq<byte>)
      requires forall i :: 0 <= i < |cells| ==> cells[i] < buffer.Length
      ensures bytes == Load(buffer[..], cells)
    {
      bytes := [];
      for i := 0 to |cells|
        invariant bytes == Load(buffer[..], cells[..i])
      {
        bytes := bytes + [buffer[cells[i]]];
      }
      assert cells[..|cells|] == cells;
    }

    method Data() returns (slices: seq<Slice>)
      requires Valid()
      ensures slices == Value().Data()
    {
      slices := MakeSequence(buffer.Length, head, tail);
    }
  }
}

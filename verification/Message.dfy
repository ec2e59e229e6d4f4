/**
 * The message: a header and a payload of 32-bit elements into which fields of any size are
 * copied byte by byte, one element reserved per byte.
 */
module Messages {
  import opened Arith

  type Field = seq<byte>

  datatype Header = Header(id: nat, size: nat)

  /** A message; `count` is `payload.size()`, `memory` the bytes of the payload's elements. */
  datatype Message = Message(header: Header, count: nat, memory: seq<byte>) {
    predicate Valid() {
      header.id < TWO32 && header.size < TWO32 && |memory| == 4 * count
    }
  }

  /** The header announces the payload: what `<<` and `>>` establish. */
  predicate WellFormed(m: Message) {
    m.Valid() && m.header.size == m.count
  }

  /** `vector::resize`: elements are dropped at the end, or zeros appended. */
  function Resize(m: Message, n: nat): (m': Message)
    requires m.Valid()
    ensures m'.Valid() && m'.count == n && m'.header == m.header
  {
    m.(count := n, memory := if n <= m.count then m.memory[..4 * n] else m.memory + Zeros(4 * (n - m.count)))
  }

  /** `memcpy` of `bytes` to offset `at`. */
  function Overwrite(memory: seq<byte>, at: nat, bytes: seq<byte>): (memory': seq<byte>)
    requires at + |bytes| <= |memory|
    ensures |memory'| == |memory|
  {
    memory[..at] + bytes + memory[at + |bytes|..]
  }

  /** `operator<<`: one element per byte is added, the bytes go to the start of the new elements. */
  function Push(m: Message, f: Field): (m': Message)
    requires m.Valid()
    ensures m'.Valid() && m'.count == m.count + |f|
  {
    var grown := Resize(m, m.count + |f|);
    grown.(memory := Overwrite(grown.memory, 4 * m.count, f), header := m.header.(size := Wrap32(grown.count)))
  }

  /** `operator>>` for a value of `size` bytes; the program demands that many elements. */
  function Pop(m: Message, size: nat): (r: (Message, Field))
    requires m.Valid() && size <= m.count
    ensures r.0.Valid() && r.0.count == m.count - size && |r.1| == size
  {
    var start := m.count - size;
    var shrunk := Resize(m, start);
    (shrunk.(header := m.header.(size := Wrap32(start))), m.memory[4 * start..4 * start + size])
  }

  // ---------------------------------------------------------------- fields form a stack

  function Sum(sizes: seq<nat>): nat {
    if sizes == [] then 0 else Sum(sizes[..|sizes| - 1]) + sizes[|sizes| - 1]
  }

  function Sizes(fs: seq<Field>): (sizes: seq<nat>)
    ensures |sizes| == |fs| && forall i :: 0 <= i < |fs| ==> sizes[i] == |fs[i]|
  {
    seq(|fs|, i requires 0 <= i < |fs| => |fs[i]|)
  }

  /** Pushes the fields from left to right. */
  function PushAll(m: Message, fs: seq<Field>): (m': Message)
    requires m.Valid()
    ensures m'.Valid() && m'.count == m.count + Sum(Sizes(fs))
  {
    if fs == [] then m
    else
      var last := |fs| - 1;
      assert Sizes(fs)[..last] == Sizes(fs[..last]);
      Push(PushAll(m, fs[..last]), fs[last])
  }

  /** Pops fields of the given sizes from right to left; the fields come back in push order. */
  function PopAll(m: Message, sizes: seq<nat>): (r: (Message, seq<Field>))
    requires m.Valid() && Sum(sizes) <= m.count
    ensures r.0.Valid() && r.0.count == m.count - Sum(sizes) && |r.1| == |sizes|
    decreases |sizes|
  {
    if sizes == [] then (m, [])
    else
      var last := |sizes| - 1;
      var (m1, f) := Pop(m, sizes[last]);
      var (m2, fs) := PopAll(m1, sizes[..last]);
      (m2, fs + [f])
  }

  /** A message with its size field brought up to date. */
  function Refreshed(m: Message): Message {
    m.(header := m.header.(size := Wrap32(m.count)))
  }

  /** One pop undoes one push: the field comes back and the earlier payload is restored exactly. */
  lemma PopPush(m: Message, f: Field)
    requires m.Valid()
    ensures Pop(Push(m, f), |f|) == (Refreshed(m), f)
  {
    var pushed := Push(m, f);
    assert pushed.memory[4 * m.count..4 * m.count + |f|] == f;
    assert pushed.memory[..4 * m.count] == m.memory;
  }

  /** The payload of a pop does not depend on the header of what is popped. */
  lemma {:induction false} PopAllIgnoresSize(m: Message, n: nat, sizes: seq<nat>)
    requires m.Valid() && n < TWO32 && Sum(sizes) <= m.count
    ensures var m' := m.(header := m.header.(size := n));
            && PopAll(m', sizes).1 == PopAll(m, sizes).1
            && (sizes != [] ==> PopAll(m', sizes) == PopAll(m, sizes))
  {
    if sizes != [] {
      var last := |sizes| - 1;
      assert Pop(m.(header := m.header.(size := n)), sizes[last]) == Pop(m, sizes[last]);
    }
  }

  lemma PopLastOfAll(m: Message, sizes: seq<nat>)
    requires m.Valid() && Sum(sizes) <= m.count && sizes != []
    ensures var last := |sizes| - 1;
            var p := Pop(m, sizes[last]);
            PopAll(m, sizes) == (PopAll(p.0, sizes[..last]).0, PopAll(p.0, sizes[..last]).1 + [p.1])
  {
  }

  lemma PushLastOfAll(m: Message, fs: seq<Field>)
    requires m.Valid() && fs != []
    ensures var last := |fs| - 1;
            && PushAll(m, fs) == Push(PushAll(m, fs[..last]), fs[last])
            && Sizes(fs)[..last] == Sizes(fs[..last]) && Sizes(fs)[last] == |fs[last]|
  {
    hide Push;
  }

  /** The last field pushed is the first one popped. */
  lemma StackStep(m: Message, fs: seq<Field>)
    requires m.Valid() && fs != []
    ensures var last := |fs| - 1;
            var inner, sizes := PushAll(m, fs[..last]), Sizes(fs[..last]);
            && Refreshed(inner).Valid() && Refreshed(inner).count == inner.count && Sum(sizes) <= inner.count
            && PopAll(PushAll(m, fs), Sizes(fs)).0 == PopAll(Refreshed(inner), sizes).0
            && PopAll(PushAll(m, fs), Sizes(fs)).1 == PopAll(Refreshed(inner), sizes).1 + [fs[last]]
  {
    var last := |fs| - 1;
    var inner := PushAll(m, fs[..last]);
    PushLastOfAll(m, fs);
    PopPush(inner, fs[last]);
    PopLastOfAll(PushAll(m, fs), Sizes(fs));
    hide Resize, Overwrite, Push, Pop, Wrap32, PushAll, PopAll, Sizes, Sum;
  }

  /** Bringing the size field up to date changes no field, and nothing at all once something was popped. */
  lemma PopAllRefreshed(m: Message, sizes: seq<nat>)
    requires m.Valid() && Sum(sizes) <= m.count
    ensures Refreshed(m).Valid() && PopAll(Refreshed(m), sizes).1 == PopAll(m, sizes).1
    ensures PopAll(Refreshed(m), sizes).0 == if sizes == [] then Refreshed(m) else PopAll(m, sizes).0
  {
    hide Pop, Wrap32, Sum;
    PopAllIgnoresSize(m, Wrap32(m.count), sizes);
  }

  lemma AllButLast<T>(s: seq<T>)
    requires s != []
    ensures s[..|s| - 1] + [s[|s| - 1]] == s
  {
  }

  lemma {:induction false} FieldsComeBack(m: Message, fs: seq<Field>)
    requires m.Valid()
    ensures PopAll(PushAll(m, fs), Sizes(fs)).1 == fs
  {
    if fs != [] {
      var last := |fs| - 1;
      StackStep(m, fs);
      hide Refreshed, Push, PushAll, PopAll, Sizes, Sum;
      PopAllRefreshed(PushAll(m, fs[..last]), Sizes(fs[..last]));
      FieldsComeBack(m, fs[..last]);
      AllButLast(fs);
    }
  }

  lemma {:induction false} PayloadRestored(m: Message, fs: seq<Field>)
    requires m.Valid()
    ensures PopAll(PushAll(m, fs), Sizes(fs)).0 == if fs == [] then m else Refreshed(m)
  {
    if fs != [] {
      var last := |fs| - 1;
      StackStep(m, fs);
      PayloadRestored(m, fs[..last]);
      hide Push, PopAll, Sum, Wrap32;
      PopAllRefreshed(PushAll(m, fs[..last]), Sizes(fs[..last]));
    }
  }

  /**
   * Typed fields form a stack: whatever fields are pushed onto whatever message, popping their
   * types in reverse gives every field back and restores the payload underneath.
   */
  lemma FieldsFormAStack(m: Message, fs: seq<Field>)
    requires m.Valid()
    ensures PopAll(PushAll(m, fs), Sizes(fs)) == (if fs == [] then m else Refreshed(m), fs)
  {
    FieldsComeBack(m, fs);
    PayloadRestored(m, fs);
    hide PushAll, PopAll, Sizes, Refreshed;
  }

  /** The header announces the payload after a push exactly while the payload stays below 2^32. */
  lemma PushWellFormedExact(m: Message, f: Field)
    requires m.Valid()
    ensures WellFormed(Push(m, f)) <==> m.count + |f| < TWO32
  {
  }

  lemma PopWellFormedExact(m: Message, size: nat)
    requires m.Valid() && size <= m.count
    ensures WellFormed(Pop(m, size).0) <==> m.count - size < TWO32
  {
  }

  // ---------------------------------------------------------------- over the wire

  /** The payload bytes a connection sends: as many bytes as there are elements. */
  function SentPayload(m: Message): (bytes: seq<byte>)
    requires m.Valid()
    ensures |bytes| == m.count
  {
    m.memory[..m.count]
  }

  /** The receiving message after a header and its payload bytes; a header of size 0 leaves the payload alone. */
  function Received(tmp: Message, h: Header, bytes: seq<byte>): (m: Message)
    requires tmp.Valid() && h.id < TWO32 && h.size < TWO32 && |bytes| == h.size
    ensures m.Valid() && m.header == h && (h.size > 0 ==> m.count == h.size)
    ensures 4 * m.count >= h.size && m.memory[..h.size] == bytes
  {
    if h.size == 0 then tmp.(header := h)
    else
      var sized := Resize(tmp, h.size);
      sized.(header := h, memory := Overwrite(sized.memory, 0, bytes))
  }

  /** A new message of kind `id` with the given fields. */
  function Build(id: nat, fs: seq<Field>): (m: Message)
    requires id < TWO32
    ensures m.Valid() && m.count == Sum(Sizes(fs))
  {
    PushAll(Message(Header(id, 0), 0, []), fs)
  }

  lemma {:induction false} BuildWellFormed(id: nat, fs: seq<Field>)
    requires id < TWO32 && Sum(Sizes(fs)) < TWO32
    ensures WellFormed(Build(id, fs)) && Build(id, fs).header.id == id
  {
    if fs != [] {
      var last := |fs| - 1;
      assert Sizes(fs)[..last] == Sizes(fs[..last]);
      BuildWellFormed(id, fs[..last]);
    }
  }

  /** A message sent and received into `tmp`. */
  function Transfer(tmp: Message, m: Message): (r: Message)
    requires tmp.Valid() && WellFormed(m)
    ensures r.Valid() && r.count >= m.count && (m.count > 0 ==> r.count == m.count)
    ensures r.memory[..m.count] == SentPayload(m)
  {
    Received(tmp, m.header, SentPayload(m))
  }

  /** Where field `i` of a layout starts, in elements. */
  function Before(sizes: seq<nat>, i: nat): nat
    requires i < |sizes|
  {
    Sum(sizes[..i])
  }

  function After(sizes: seq<nat>, i: nat): nat
    requires i < |sizes|
    ensures Before(sizes, i) + sizes[i] + After(sizes, i) == Sum(sizes)
  {
    SumMonotone(sizes, i + 1);
    assert sizes[..i + 1][..i] == sizes[..i];
    Sum(sizes) - Sum(sizes[..i + 1])
  }

  lemma {:induction false} SumMonotone(sizes: seq<nat>, k: nat)
    requires k <= |sizes|
    ensures Sum(sizes[..k]) <= Sum(sizes)
  {
    if k < |sizes| {
      var last := |sizes| - 1;
      SumMonotone(sizes[..last], k);
      assert sizes[..last][..k] == sizes[..k];
    } else {
      assert sizes[..k] == sizes;
    }
  }

  /** Popping reads field `i` from the start of its own elements. */
  lemma {:induction false} PopAllReads(m: Message, sizes: seq<nat>, i: nat)
    requires m.Valid() && m.count == Sum(sizes) && i < |sizes|
    ensures 4 * Before(sizes, i) + sizes[i] <= |m.memory|
    ensures PopAll(m, sizes).1[i] == m.memory[4 * Before(sizes, i)..4 * Before(sizes, i) + sizes[i]]
    decreases |sizes|
  {
    var last := |sizes| - 1;
    var (m1, f) := Pop(m, sizes[last]);
    if i < last {
      PopAllReads(m1, sizes[..last], i);
      assert sizes[..last][..i] == sizes[..i];
    }
  }

  predicate Layout(sizes: seq<nat>) {
    Sum(sizes) < TWO32 && forall i :: 0 <= i < |sizes| ==> sizes[i] > 0
  }

  lemma SumPositive(sizes: seq<nat>, i: nat)
    requires i < |sizes| && sizes[i] > 0
    ensures Sum(sizes) > 0
  {
    assert Before(sizes, i) + sizes[i] + After(sizes, i) == Sum(sizes);
  }

  function BuiltMessage(id: nat, fs: seq<Field>): (m: Message)
    requires id < TWO32 && Sum(Sizes(fs)) < TWO32
    ensures WellFormed(m) && m == Build(id, fs)
  {
    BuildWellFormed(id, fs);
    Build(id, fs)
  }

  /** What popping yields after the message of the fields `fs` was sent and received into `tmp`. */
  function RoundTrip(tmp: Message, id: nat, fs: seq<Field>): (fs': seq<Field>)
    requires tmp.Valid() && id < TWO32 && Layout(Sizes(fs))
    ensures |fs'| == |fs|
  {
    PopAll(Transfer(tmp, BuiltMessage(id, fs)), Sizes(fs)).1
  }

  lemma BuildIsPush(id: nat, fs: seq<Field>)
    requires id < TWO32
    ensures Build(id, fs) == PushAll(Message(Header(id, 0), 0, []), fs)
  {
  }

  /** In the built message field `i` lies where popping reads it. */
  lemma BuiltField(id: nat, fs: seq<Field>, i: nat)
    requires id < TWO32 && i < |fs|
    ensures var at := 4 * Before(Sizes(fs), i);
            at + |fs[i]| <= |Build(id, fs).memory| && Build(id, fs).memory[at..at + |fs[i]|] == fs[i]
  {
    hide Resize, Overwrite, Push, Pop, PushAll, PopAll, Sum, Build;
    BuildIsPush(id, fs);
    PopAllReads(Build(id, fs), Sizes(fs), i);
    FieldsFormAStack(Message(Header(id, 0), 0, []), fs);
  }

  /** In the received message field `i` is read at the same place, and its sent bytes are there. */
  lemma ReceivedField(tmp: Message, id: nat, fs: seq<Field>, i: nat)
    requires tmp.Valid() && id < TWO32 && Layout(Sizes(fs)) && i < |fs|
    ensures var at := 4 * Before(Sizes(fs), i);
            var r := Transfer(tmp, BuiltMessage(id, fs));
            && r.count == Sum(Sizes(fs)) && at + |fs[i]| <= |r.memory|
            && RoundTrip(tmp, id, fs)[i] == r.memory[at..at + |fs[i]|]
            && forall k :: 0 <= k < |fs[i]| && at + k < r.count ==> r.memory[at + k] == fs[i][k]
  {
    hide Resize, Overwrite, Push, Pop, PopAll, PushAll, Received, Sum;
    var sizes := Sizes(fs);
    assert sizes[i] == |fs[i]|;
    SumPositive(sizes, i);
    var m := BuiltMessage(id, fs);
    var r := Transfer(tmp, m);
    PopAllReads(r, sizes, i);
    BuiltField(id, fs, i);
    var at := 4 * Before(sizes, i);
    forall k | 0 <= k < |fs[i]| && at + k < r.count
      ensures r.memory[at + k] == fs[i][k]
    {
      assert r.memory[..r.count][at + k] == m.memory[..m.count][at + k];
      assert m.memory[at..at + |fs[i]|][k] == m.memory[at + k];
    }
  }

  /** Fields of the given sizes all of whose bytes are 1. */
  function Ones(sizes: seq<nat>): (fs: seq<Field>)
    ensures Sizes(fs) == sizes
    ensures forall i :: 0 <= i < |sizes| ==> |fs[i]| == sizes[i] && forall k :: 0 <= k < sizes[i] ==> fs[i][k] == 1
  {
    seq<Field>(|sizes|, i requires 0 <= i < |sizes| => seq<byte>(sizes[i], k => 1))
  }

  /** A field that outruns the sent bytes loses its last byte to a fresh receiving message. */
  lemma LastByteLost(id: nat, sizes: seq<nat>, i: nat)
    requires id < TWO32 && Layout(sizes) && i < |sizes| && 3 * Before(sizes, i) > After(sizes, i)
    ensures RoundTrip(Message(Header(0, 0), 0, []), id, Ones(sizes))[i] != Ones(sizes)[i]
  {
    hide Overwrite, Push, Pop, PopAll, PushAll, Sum, RoundTrip;
    var tmp, fs := Message(Header(0, 0), 0, []), Ones(sizes);
    assert |fs| == |sizes| && sizes[i] == |fs[i]|;
    ReceivedField(tmp, id, fs, i);
    var r := Transfer(tmp, BuiltMessage(id, fs));
    var at := 4 * Before(sizes, i);
    FreshTail(BuiltMessage(id, fs), at + sizes[i] - 1);
    assert fs[i][sizes[i] - 1] == 1;
    assert r.memory[at..at + sizes[i]][sizes[i] - 1] == r.memory[at + sizes[i] - 1];
  }

  /** Beyond the sent bytes a fresh receiving message holds zeros. */
  lemma FreshTail(m: Message, k: nat)
    requires WellFormed(m) && m.count <= k < 4 * m.count
    ensures var r := Transfer(Message(Header(0, 0), 0, []), m);
            k < |r.memory| && r.memory[k] == 0
  {
  }

  /**
   * Exactly which fields survive a transfer: for every layout, field `i` comes back for all field
   * values and whatever the receiving message held before, if and only if three times what lies
   * before it is at most what lies after it.
   */
  lemma FieldSurvivesExact(id: nat, sizes: seq<nat>, i: nat)
    requires id < TWO32 && Layout(sizes) && i < |sizes|
    ensures (forall tmp: Message, fs: seq<Field> :: tmp.Valid() && Sizes(fs) == sizes ==>
               RoundTrip(tmp, id, fs)[i] == fs[i])
            <==> 3 * Before(sizes, i) <= After(sizes, i)
  {
    hide Push, Pop, PopAll, PushAll, Sum, RoundTrip, Transfer, BuiltMessage;
    if 3 * Before(sizes, i) <= After(sizes, i) {
      forall tmp: Message, fs: seq<Field> | tmp.Valid() && Sizes(fs) == sizes
        ensures RoundTrip(tmp, id, fs)[i] == fs[i]
      {
        assert |fs| == |sizes| && sizes[i] == |fs[i]|;
        ReceivedField(tmp, id, fs, i);
      }
    } else {
      LastByteLost(id, sizes, i);
    }
  }

  /**
   * The round trip push, send, receive, pop holds for all messages of a layout exactly when the
   * layout has at most one field; the last of several fields always outruns the sent bytes.
   */
  lemma RoundTripExact(id: nat, sizes: seq<nat>)
    requires id < TWO32 && Layout(sizes)
    ensures (forall tmp: Message, fs: seq<Field> :: tmp.Valid() && Sizes(fs) == sizes ==>
               RoundTrip(tmp, id, fs) == fs)
            <==> |sizes| <= 1
  {
    hide Push, Pop, PopAll, PushAll, RoundTrip, Transfer, BuiltMessage;
    if |sizes| <= 1 {
      forall tmp: Message, fs: seq<Field> | tmp.Valid() && Sizes(fs) == sizes
        ensures RoundTrip(tmp, id, fs) == fs
      {
        if |sizes| == 1 {
          assert Before(sizes, 0) == 0 by { assert sizes[..0] == []; }
          FieldSurvivesExact(id, sizes, 0);
        }
      }
    } else {
      var i := |sizes| - 1;
      assert Before(sizes, i) > 0 by {
        assert sizes[..i][0] > 0;
        SumPositive(sizes[..i], 0);
      }
      assert After(sizes, i) == 0 by { assert sizes[..i + 1] == sizes; }
      LastByteLost(id, sizes, i);
    }
  }

  // ---------------------------------------------------------------- the message as an object

  class MessageObject {
    var header: Header
    var count: nat
    var memory: seq<byte>

    function Value(): Message
      reads this
    {
      Message(header, count, memory)
    }

    constructor (id: nat)
      requires id < TWO32
      ensures Value() == Message(Header(id, 0), 0, []) && WellFormed(Value())
    {
      header, count, memory := Header(id, 0), 0, [];
    }

    method ResizePayload(n: nat)
      requires Value().Valid()
      modifies this`count, this`memory
      ensures Value() == Resize(old(Value()), n)
    {
      memory := if n <= count then memory[..4 * n] else memory + Zeros(4 * (n - count));
      count := n;
    }

    method PushField(data: Field)
      requires Value().Valid()
      modifies this
      ensures Value() == Push(old(Value()), data)
      ensures Pop(Value(), |data|) == (Refreshed(old(Value())), data)
    {
      PopPush(Value(), data);
      var currentSize := count;
      ResizePayload(currentSize + |data|);
      memory := Overwrite(memory, 4 * currentSize, data);
      header := header.(size := Wrap32(count));
    }

    method PopField(size: nat) returns (data: Field)
      requires Value().Valid() && size <= count
      modifies this
      ensures (Value(), data) == Pop(old(Value()), size)
    {
      var start := count - size;
      data := memory[4 * start..4 * start + size];
      ResizePayload(start);
      header := header.(size := Wrap32(count));
    }
  }
}

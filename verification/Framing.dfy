/**
 * Framing on the byte stream: an eight-byte header with kind and size, then the payload; and
 * the incremental reader that takes the stream apart again, whatever pieces it arrives in.
 */
module Framing {
  import opened Arith
  import opened Messages

  const HEADER_BYTES: nat := 8

  // ---------------------------------------------------------------- encoding

  /** A `uint32_t` as it lies in memory (low byte first). */
  function LE32(n: nat): (bytes: seq<byte>)
    requires n < TWO32
    ensures |bytes| == 4
  {
    var n1 := n / 256;
    var n2 := n1 / 256;
    [n % 256, n1 % 256, n2 % 256, n2 / 256]
  }

  function FromLE32(bytes: seq<byte>): (n: nat)
    requires |bytes| == 4
    ensures n < TWO32
  {
    var b1: int, b2: int, b3: int := bytes[1], bytes[2], bytes[3];
    bytes[0] + 256 * (b1 + 256 * (b2 + 256 * b3))
  }

  lemma FromLE32OfLE32(n: nat)
    requires n < TWO32
    ensures FromLE32(LE32(n)) == n
  {
  }

  lemma LE32OfFromLE32(bytes: seq<byte>)
    requires |bytes| == 4
    ensures LE32(FromLE32(bytes)) == bytes
  {
    var b1: int, b2: int, b3: int := bytes[1], bytes[2], bytes[3];
    Digit(bytes[0], b1 + 256 * (b2 + 256 * b3));
    Digit(b1, b2 + 256 * b3);
    Digit(b2, b3);
  }

  lemma Digit(b: byte, q: nat)
    ensures (b + 256 * q) % 256 == b && (b + 256 * q) / 256 == q
  {
  }

  function Power256(k: nat): (p: nat)
    ensures p > 0
  {
    if k == 0 then 1 else 256 * Power256(k - 1)
  }

  lemma Powers()
    ensures Power256(1) == 0x100 && Power256(2) == 0x1_0000 && Power256(3) == 0x100_0000
  {
    assert Power256(1) == 256 * Power256(0);
    assert Power256(2) == 256 * Power256(1);
    assert Power256(3) == 256 * Power256(2);
  }

  /** Byte number `k` of a number as it lies in memory. */
  lemma LE32At(n: nat, k: nat)
    requires n < TWO32 && k < 4
    ensures LE32(n)[k] == (n / Power256(k)) % 256
  {
    Powers();
  }

  /** A number by its bytes, low byte first. */
  function Sum(b0: nat, b1: nat, b2: nat, b3: nat): nat {
    b0 + 0x100 * b1 + 0x1_0000 * b2 + 0x100_0000 * b3
  }

  lemma FromLE32Sum(bytes: seq<byte>)
    requires |bytes| == 4
    ensures FromLE32(bytes) == Sum(bytes[0], bytes[1], bytes[2], bytes[3])
  {
  }

  function EncodeHeader(h: Header): (bytes: seq<byte>)
    requires h.id < TWO32 && h.size < TWO32
    ensures |bytes| == HEADER_BYTES
  {
    LE32(h.id) + LE32(h.size)
  }

  function DecodeHeader(bytes: seq<byte>): (h: Header)
    requires |bytes| == HEADER_BYTES
    ensures h.id < TWO32 && h.size < TWO32
  {
    Header(FromLE32(bytes[..4]), FromLE32(bytes[4..]))
  }

  lemma DecodeEncode(h: Header)
    requires h.id < TWO32 && h.size < TWO32
    ensures DecodeHeader(EncodeHeader(h)) == h
  {
    hide LE32, FromLE32;
    FromLE32OfLE32(h.id);
    FromLE32OfLE32(h.size);
    assert EncodeHeader(h)[..4] == LE32(h.id) && EncodeHeader(h)[4..] == LE32(h.size);
  }

  lemma EncodeDecode(bytes: seq<byte>)
    requires |bytes| == HEADER_BYTES
    ensures EncodeHeader(DecodeHeader(bytes)) == bytes
  {
    hide LE32, FromLE32;
    LE32OfFromLE32(bytes[..4]);
    LE32OfFromLE32(bytes[4..]);
  }

  /** The bytes a connection writes for a message: header, then as many payload bytes as elements. */
  function Wire(m: Message): (bytes: seq<byte>)
    requires m.Valid()
    ensures |bytes| == HEADER_BYTES + m.count
  {
    EncodeHeader(m.header) + SentPayload(m)
  }

  /**
   * The layout on the wire, byte by byte: the kind, low byte first, then the announced size, low
   * byte first, then the first bytes of the payload's memory.
   */
  lemma WireAt(m: Message, k: nat)
    requires m.Valid() && k < HEADER_BYTES + m.count
    ensures Wire(m)[k] ==
            if k < 4 then (m.header.id / Power256(k)) % 256
            else if k < HEADER_BYTES then (m.header.size / Power256(k - 4)) % 256
            else m.memory[k - HEADER_BYTES]
  {
    if k < 4 {
      LE32At(m.header.id, k);
    } else if k < HEADER_BYTES {
      LE32At(m.header.size, k - 4);
    }
    hide LE32, Power256;
  }

  /** And what a received header is read as. */
  lemma HeaderReadAs(bytes: seq<byte>)
    requires |bytes| == HEADER_BYTES
    ensures DecodeHeader(bytes).id == Sum(bytes[0], bytes[1], bytes[2], bytes[3])
    ensures DecodeHeader(bytes).size == Sum(bytes[4], bytes[5], bytes[6], bytes[7])
  {
    hide FromLE32;
    FromLE32Sum(bytes[..4]);
    FromLE32Sum(bytes[4..]);
  }

  ghost predicate AllValid(ms: seq<Message>) {
    forall i :: 0 <= i < |ms| ==> ms[i].Valid()
  }

  ghost predicate AllWellFormed(ms: seq<Message>) {
    forall i :: 0 <= i < |ms| ==> WellFormed(ms[i])
  }

  function WireAll(ms: seq<Message>): seq<byte>
    requires forall i :: 0 <= i < |ms| ==> ms[i].Valid()
  {
    if ms == [] then [] else Wire(ms[0]) + WireAll(ms[1..])
  }

  lemma {:induction false} WireAllAppend(ms: seq<Message>, ns: seq<Message>)
    requires AllValid(ms) && AllValid(ns)
    ensures WireAll(ms + ns) == WireAll(ms) + WireAll(ns)
  {
    if ms == [] {
      assert ms + ns == ns;
    } else {
      assert (ms + ns)[0] == ms[0] && (ms + ns)[1..] == ms[1..] + ns;
      WireAllAppend(ms[1..], ns);
    }
  }

  /** What two ends can agree on: kind, announced size, and that many payload bytes. */
  datatype View = View(id: nat, size: nat, bytes: seq<byte>)

  function ViewOf(m: Message): View {
    View(m.header.id, m.header.size, if m.header.size <= |m.memory| then m.memory[..m.header.size] else m.memory)
  }

  function Views(ms: seq<Message>): (vs: seq<View>)
    ensures |vs| == |ms|
  {
    seq(|ms|, i requires 0 <= i < |ms| => ViewOf(ms[i]))
  }

  // ---------------------------------------------------------------- reference parser

  datatype Parsed = Parsed(frames: seq<View>, rest: seq<byte>)

  /** Cuts whole frames off the front of a byte string and leaves the rest. */
  function Parse(bytes: seq<byte>): Parsed {
    if |bytes| < HEADER_BYTES then Parsed([], bytes)
    else
      var h := DecodeHeader(bytes[..HEADER_BYTES]);
      if |bytes| < HEADER_BYTES + h.size then Parsed([], bytes)
      else
        var p := Parse(bytes[HEADER_BYTES + h.size..]);
        Parsed([View(h.id, h.size, bytes[HEADER_BYTES..HEADER_BYTES + h.size])] + p.frames, p.rest)
  }

  function FrameBytes(vs: seq<View>): nat {
    if vs == [] then 0 else HEADER_BYTES + vs[0].size + FrameBytes(vs[1..])
  }

  /** The bytes consumed are the frames' eight bytes and sizes; the rest is less than a frame. */
  lemma {:induction false} ParseAccounts(bytes: seq<byte>)
    ensures |bytes| == FrameBytes(Parse(bytes).frames) + |Parse(bytes).rest|
  {
    if |bytes| >= HEADER_BYTES {
      var h := DecodeHeader(bytes[..HEADER_BYTES]);
      if |bytes| >= HEADER_BYTES + h.size {
        ParseAccounts(bytes[HEADER_BYTES + h.size..]);
        var p := Parse(bytes);
        assert p.frames[1..] == Parse(bytes[HEADER_BYTES + h.size..]).frames;
      }
    }
  }

  /** One whole frame at the front. */
  lemma ParseFrame(h: Header, payload: seq<byte>, rest: seq<byte>)
    requires h.id < TWO32 && h.size < TWO32 && |payload| == h.size
    ensures var p := Parse(rest);
            Parse(EncodeHeader(h) + payload + rest) == Parsed([View(h.id, h.size, payload)] + p.frames, p.rest)
  {
    hide EncodeHeader, DecodeHeader;
    var bytes := EncodeHeader(h) + payload + rest;
    DecodeEncode(h);
    assert bytes[..HEADER_BYTES] == EncodeHeader(h);
    assert bytes[HEADER_BYTES..HEADER_BYTES + h.size] == payload;
    assert bytes[HEADER_BYTES + h.size..] == rest;
  }

  lemma WireAllFirst(ms: seq<Message>)
    requires AllValid(ms) && ms != []
    ensures WireAll(ms) == EncodeHeader(ms[0].header) + SentPayload(ms[0]) + WireAll(ms[1..])
  {
    hide EncodeHeader, SentPayload;
  }

  lemma ViewsFirst(ms: seq<Message>)
    requires ms != [] && WellFormed(ms[0])
    ensures Views(ms) == [View(ms[0].header.id, ms[0].header.size, SentPayload(ms[0]))] + Views(ms[1..])
  {
  }

  /** The wire form of well-formed messages parses back into exactly their views. */
  lemma {:induction false} ParseWireAll(ms: seq<Message>)
    requires AllValid(ms) && AllWellFormed(ms)
    ensures Parse(WireAll(ms)) == Parsed(Views(ms), [])
  {
    if ms != [] {
      WireAllFirst(ms);
      ViewsFirst(ms);
      hide EncodeHeader, SentPayload, WireAll, Parse, Views;
      ParseWireAll(ms[1..]);
      ParseFrame(ms[0].header, SentPayload(ms[0]), WireAll(ms[1..]));
    }
  }

  /** A message is framed as itself if and only if its header announces its payload. */
  lemma WireParsesExact(m: Message)
    requires m.Valid()
    ensures Parse(Wire(m)) == Parsed([ViewOf(m)], []) <==> WellFormed(m)
  {
    if WellFormed(m) {
      ParseWireAll([m]);
      assert WireAll([m]) == Wire(m) + WireAll([]) == Wire(m);
      assert Views([m]) == [ViewOf(m)];
    } else {
      ParseAccounts(Wire(m));
      assert FrameBytes([ViewOf(m)]) == HEADER_BYTES + m.header.size + FrameBytes([]);
    }
  }

  // ---------------------------------------------------------------- the incremental reader

  /** Which read is outstanding and how far it has got. */
  datatype Phase = InHeader(got: seq<byte>) | InPayload(filled: nat)

  /** The reading side of a connection: the reused message `tmp` and the messages queued so far. */
  datatype Reader = Reader(phase: Phase, tmp: Message, out: seq<Message>) {
    predicate Valid() {
      && tmp.Valid()
      && match phase
         case InHeader(got) => |got| < HEADER_BYTES
         case InPayload(filled) => filled < tmp.header.size == tmp.count
    }

    /** The bytes the outstanding read still waits for. */
    function Need(): (n: nat)
      requires Valid()
      ensures n > 0
    {
      match phase
      case InHeader(got) => HEADER_BYTES - |got|
      case InPayload(filled) => tmp.count - filled
    }

    /** The bytes of the partial frame. */
    function Residue(): seq<byte>
      requires Valid()
    {
      match phase
      case InHeader(got) => got
      case InPayload(filled) => EncodeHeader(tmp.header) + tmp.memory[..filled]
    }
  }

  function Deliver(r: Reader): Reader {
    r.(phase := InHeader([]), out := r.out + [r.tmp])
  }

  /** Completion of the header read. */
  function HeaderRead(r: Reader, bytes: seq<byte>): Reader
    requires r.Valid() && |bytes| == HEADER_BYTES
  {
    var tmp := r.tmp.(header := DecodeHeader(bytes));
    if tmp.header.size > 0 then r.(phase := InPayload(0), tmp := Resize(tmp, tmp.header.size))
    else Deliver(r.(tmp := tmp))
  }

  function FeedByte(r: Reader, b: byte): (r': Reader)
    requires r.Valid()
    ensures r'.Valid()
  {
    match r.phase
    case InHeader(got) =>
      if |got| + 1 < HEADER_BYTES then r.(phase := InHeader(got + [b])) else HeaderRead(r, got + [b])
    case InPayload(filled) =>
      var r' := r.(tmp := r.tmp.(memory := r.tmp.memory[filled := b]));
      if filled + 1 < r.tmp.count then r'.(phase := InPayload(filled + 1)) else Deliver(r')
  }

  function Feed(r: Reader, bytes: seq<byte>): (r': Reader)
    requires r.Valid()
    ensures r'.Valid()
  {
    if bytes == [] then r
    else FeedByte(Feed(r, bytes[..|bytes| - 1]), bytes[|bytes| - 1])
  }

  lemma {:induction false} FeedAppend(r: Reader, a: seq<byte>, b: seq<byte>)
    requires r.Valid()
    ensures Feed(r, a + b) == Feed(Feed(r, a), b)
  {
    hide FeedByte;
    if b == [] {
      assert a + b == a;
    } else {
      assert (a + b)[..|a + b| - 1] == a + b[..|b| - 1];
      FeedAppend(r, a, b[..|b| - 1]);
    }
  }

  function Concat(chunks: seq<seq<byte>>): seq<byte> {
    if chunks == [] then [] else chunks[0] + Concat(chunks[1..])
  }

  function FeedChunks(r: Reader, chunks: seq<seq<byte>>): (r': Reader)
    requires r.Valid()
    ensures r'.Valid()
    decreases |chunks|
  {
    if chunks == [] then r else FeedChunks(Feed(r, chunks[0]), chunks[1..])
  }

  /** Any way of cutting the stream gives the same messages and the same residual state. */
  lemma {:induction false} ChunkingIndependent(r: Reader, chunks: seq<seq<byte>>)
    requires r.Valid()
    ensures FeedChunks(r, chunks) == Feed(r, Concat(chunks))
    decreases |chunks|
  {
    if chunks != [] {
      ChunkingIndependent(Feed(r, chunks[0]), chunks[1..]);
      FeedAppend(r, chunks[0], Concat(chunks[1..]));
    }
  }

  /** Part of a header. */
  lemma {:induction false} FeedInHeader(r: Reader, bytes: seq<byte>)
    requires r.Valid() && r.phase.InHeader? && |r.phase.got| + |bytes| < HEADER_BYTES
    ensures Feed(r, bytes) == r.(phase := InHeader(r.phase.got + bytes))
  {
    if bytes == [] {
      assert r.phase.got + bytes == r.phase.got;
    } else {
      var last := |bytes| - 1;
      FeedInHeader(r, bytes[..last]);
      assert r.phase.got + bytes[..last] + [bytes[last]] == r.phase.got + bytes;
    }
  }

  /** The last byte comes last. */
  lemma FeedLast(r: Reader, bytes: seq<byte>)
    requires r.Valid() && bytes != []
    ensures Feed(r, bytes) == FeedByte(Feed(r, bytes[..|bytes| - 1]), bytes[|bytes| - 1])
  {
    hide FeedByte;
  }

  /** The rest of a header. */
  lemma FeedHeader(r: Reader, bytes: seq<byte>)
    requires r.Valid() && r.phase.InHeader? && |r.phase.got| + |bytes| == HEADER_BYTES
    ensures Feed(r, bytes) == HeaderRead(r, r.phase.got + bytes)
  {
    var last := |bytes| - 1;
    FeedLast(r, bytes);
    FeedInHeader(r, bytes[..last]);
    hide Feed;
    var r' := r.(phase := InHeader(r.phase.got + bytes[..last]));
    assert r.phase.got + bytes[..last] + [bytes[last]] == r.phase.got + bytes;
    assert FeedByte(r', bytes[last]) == HeaderRead(r', r.phase.got + bytes);
    assert HeaderRead(r', r.phase.got + bytes) == HeaderRead(r, r.phase.got + bytes);
  }

  /** Part of a payload lands in place. */
  lemma {:induction false} FeedInPayload(r: Reader, bytes: seq<byte>)
    requires r.Valid() && r.phase.InPayload? && r.phase.filled + |bytes| < r.tmp.count
    ensures Feed(r, bytes) ==
            r.(phase := InPayload(r.phase.filled + |bytes|),
               tmp := r.tmp.(memory := Overwrite(r.tmp.memory, r.phase.filled, bytes)))
  {
    if bytes == [] {
      assert Overwrite(r.tmp.memory, r.phase.filled, bytes) == r.tmp.memory;
    } else {
      var last := |bytes| - 1;
      FeedInPayload(r, bytes[..last]);
      OverwriteOneMore(r.tmp.memory, r.phase.filled, bytes);
    }
  }

  lemma OverwriteOneMore(memory: seq<byte>, at: nat, bytes: seq<byte>)
    requires bytes != [] && at + |bytes| <= |memory|
    ensures Overwrite(memory, at, bytes[..|bytes| - 1])[at + |bytes| - 1 := bytes[|bytes| - 1]]
            == Overwrite(memory, at, bytes)
  {
  }

  /** The rest of a payload completes the message. */
  lemma FeedPayload(r: Reader, bytes: seq<byte>)
    requires r.Valid() && r.phase.InPayload? && r.phase.filled + |bytes| == r.tmp.count
    ensures Feed(r, bytes) == Deliver(r.(tmp := r.tmp.(memory := Overwrite(r.tmp.memory, r.phase.filled, bytes))))
  {
    FeedInPayload(r, bytes[..|bytes| - 1]);
    OverwriteOneMore(r.tmp.memory, r.phase.filled, bytes);
  }

  /** A whole frame queues the reused message with the new header and payload bytes, and no more. */
  lemma FeedFrame(r: Reader, h: Header, payload: seq<byte>)
    requires r.Valid() && r.phase == InHeader([])
    requires h.id < TWO32 && h.size < TWO32 && |payload| == h.size
    ensures Feed(r, EncodeHeader(h) + payload) == Deliver(r.(tmp := Received(r.tmp, h, payload)))
  {
    hide EncodeHeader, DecodeHeader, Resize, Overwrite;
    FeedAppend(r, EncodeHeader(h), payload);
    FeedHeader(r, EncodeHeader(h));
    DecodeEncode(h);
    assert [] + EncodeHeader(h) == EncodeHeader(h);
    if h.size > 0 {
      FeedPayload(HeaderRead(r, EncodeHeader(h)), payload);
      assert Resize(r.tmp.(header := h), h.size) == Resize(r.tmp, h.size).(header := h) by {
        ResizeKeepsHeader(r.tmp, h, h.size);
      }
    }
  }

  lemma ResizeKeepsHeader(m: Message, h: Header, n: nat)
    requires m.Valid() && h.id < TWO32 && h.size < TWO32
    ensures Resize(m.(header := h), n) == Resize(m, n).(header := h)
  {
  }

  /** Less than a frame stays in the reader as its residue. */
  lemma FeedPartial(r: Reader, bytes: seq<byte>)
    requires r.Valid() && r.phase == InHeader([]) && Parse(bytes) == Parsed([], bytes)
    ensures Feed(r, bytes).Residue() == bytes && Feed(r, bytes).out == r.out
  {
    if |bytes| < HEADER_BYTES {
      FeedInHeader(r, bytes);
      assert [] + bytes == bytes;
    } else {
      PartialFrame(bytes);
      hide Feed, Parse;
      FeedPartialPayload(r, bytes[..HEADER_BYTES], bytes[HEADER_BYTES..]);
      assert bytes == bytes[..HEADER_BYTES] + bytes[HEADER_BYTES..];
    }
  }

  /** What the parser leaves alone has less payload than its header announces. */
  lemma PartialFrame(bytes: seq<byte>)
    requires |bytes| >= HEADER_BYTES && Parse(bytes) == Parsed([], bytes)
    ensures |bytes[HEADER_BYTES..]| < DecodeHeader(bytes[..HEADER_BYTES]).size
  {
    hide DecodeHeader;
  }

  lemma FeedPartialPayload(r: Reader, head: seq<byte>, part: seq<byte>)
    requires r.Valid() && r.phase == InHeader([])
    requires |head| == HEADER_BYTES && |part| < DecodeHeader(head).size
    ensures Feed(r, head + part).Residue() == head + part && Feed(r, head + part).out == r.out
  {
    FeedAppend(r, head, part);
    FeedHeader(r, head);
    assert [] + head == head;
    hide Feed, Parse, DecodeHeader, EncodeHeader, Resize;
    EncodeDecode(head);
    FillPartly(HeaderRead(r, head), part);
  }

  /** The beginning of a payload is held in the message's memory. */
  lemma FillPartly(r: Reader, part: seq<byte>)
    requires r.Valid() && r.phase == InPayload(0) && |part| < r.tmp.count
    ensures Feed(r, part).Residue() == EncodeHeader(r.tmp.header) + part && Feed(r, part).out == r.out
  {
    FeedInPayload(r, part);
    hide Feed, EncodeHeader;
    assert Overwrite(r.tmp.memory, 0, part)[..|part|] == part;
  }

  /**
   * The reader is the reference parser: fed any byte string from an idle state, it queues exactly
   * the frames the parser cuts off, and what it holds back is exactly the parser's rest.
   */
  lemma {:induction false} ReaderParses(r: Reader, bytes: seq<byte>)
    requires r.Valid() && r.phase == InHeader([])
    ensures var r' := Feed(r, bytes);
            && Views(r'.out) == Views(r.out) + Parse(bytes).frames
            && r'.Residue() == Parse(bytes).rest
    decreases |bytes|
  {
    if Parse(bytes) == Parsed([], bytes) {
      FeedPartial(r, bytes);
    } else {
      var size := DecodeHeader(bytes[..HEADER_BYTES]).size;
      var rest := bytes[HEADER_BYTES + size..];
      var r1 := ReadFirstFrame(r, bytes);
      ReaderParses(r1, rest);
    }
  }

  lemma ReadFirstFrame(r: Reader, bytes: seq<byte>) returns (r1: Reader)
    requires r.Valid() && r.phase == InHeader([]) && Parse(bytes) != Parsed([], bytes)
    ensures |bytes| >= HEADER_BYTES && |bytes| >= HEADER_BYTES + DecodeHeader(bytes[..HEADER_BYTES]).size
    ensures var rest := bytes[HEADER_BYTES + DecodeHeader(bytes[..HEADER_BYTES]).size..];
            && r1.Valid() && r1.phase == InHeader([]) && Feed(r, bytes) == Feed(r1, rest)
            && Views(r.out) + Parse(bytes).frames == Views(r1.out) + Parse(rest).frames
            && Parse(bytes).rest == Parse(rest).rest
  {
    hide EncodeHeader, DecodeHeader, Received, Feed;
    var head := bytes[..HEADER_BYTES];
    var h := DecodeHeader(head);
    var payload := bytes[HEADER_BYTES..HEADER_BYTES + h.size];
    var rest := bytes[HEADER_BYTES + h.size..];
    EncodeDecode(head);
    assert bytes == EncodeHeader(h) + payload + rest;
    FeedAppend(r, EncodeHeader(h) + payload, rest);
    FeedFrame(r, h, payload);
    r1 := Deliver(r.(tmp := Received(r.tmp, h, payload)));
    assert ViewOf(Received(r.tmp, h, payload)) == View(h.id, h.size, payload);
    assert Views(r1.out) == Views(r.out) + [View(h.id, h.size, payload)];
    assert Parse(bytes).frames == [View(h.id, h.size, payload)] + Parse(rest).frames;
  }

  /** Feeding more never takes back what was queued. */
  lemma {:induction false} FeedExtends(r: Reader, bytes: seq<byte>)
    requires r.Valid()
    ensures r.out <= Feed(r, bytes).out
  {
    if bytes != [] {
      FeedExtends(r, bytes[..|bytes| - 1]);
    }
  }

  /** A reader that was fed a prefix of the wire form of well-formed messages has queued a prefix of them. */
  lemma PrefixDelivers(r: Reader, fed: seq<byte>, ms: seq<Message>)
    requires r.Valid() && r.phase == InHeader([]) && r.out == []
    requires AllValid(ms) && AllWellFormed(ms) && fed <= WireAll(ms)
    ensures Views(Feed(r, fed).out) <= Views(ms)
    ensures fed == WireAll(ms) ==> Views(Feed(r, fed).out) == Views(ms) && Feed(r, fed).phase == InHeader([])
  {
    var all := WireAll(ms);
    ReaderParses(r, all);
    ParseWireAll(ms);
    assert fed + all[|fed|..] == all;
    FeedAppend(r, fed, all[|fed|..]);
    FeedExtends(Feed(r, fed), all[|fed|..]);
    assert Views(Feed(r, all).out) == Views(ms);
    assert Views(Feed(r, fed).out) <= Views(Feed(r, all).out);
  }
}

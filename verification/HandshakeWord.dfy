/**
 * The eight-byte handshake words: the puzzle both ends compute on them, their bytes on the wire,
 * and which of those bytes the puzzle depends on.
 */
module HandshakeWords {
  import opened Arith
  import opened Framing

  const HANDSHAKE_BYTES: nat := 8

  /** The puzzle both ends compute. */
  function Encrypt(input: bv64): bv64 {
    var out := input ^ 0xDEADBEEDC0DECAFE;
    (((out & 0xF0F0F0F0F0F0F0) >> 4) | ((out & 0xF0F0F0F0F0F0F0) << 4)) ^ 0xC0DEFACE12345678
  }

  /** A 64-bit word as a number, and back. */
  function Num(x: bv64): nat {
    x as nat
  }

  function Bits(n: nat): bv64
    requires n < TWO64
  {
    n as bv64
  }

  /** The puzzle on 64-bit words as numbers. */
  function EncryptWord(n: nat): (r: nat)
    requires n < TWO64
    ensures r < TWO64
  {
    Num(Encrypt(Bits(n)))
  }

  // ---------------------------------------------------------------- bytes of a word

  /** A `uint64_t` as it lies in memory (low byte first). */
  function LE64(n: nat): (bytes: seq<byte>)
    requires n < TWO64
    ensures |bytes| == HANDSHAKE_BYTES
  {
    LE32(n % TWO32) + LE32(n / TWO32)
  }

  function FromLE64(bytes: seq<byte>): (n: nat)
    requires |bytes| == HANDSHAKE_BYTES
    ensures n < TWO64
  {
    FromLE32(bytes[..4]) + TWO32 * FromLE32(bytes[4..])
  }

  lemma FromLE64OfLE64(n: nat)
    requires n < TWO64
    ensures FromLE64(LE64(n)) == n
  {
    hide LE32, FromLE32;
    FromLE32OfLE32(n % TWO32);
    FromLE32OfLE32(n / TWO32);
    assert LE64(n)[..4] == LE32(n % TWO32) && LE64(n)[4..] == LE32(n / TWO32);
  }

  lemma LE64OfFromLE64(bytes: seq<byte>)
    requires |bytes| == HANDSHAKE_BYTES
    ensures LE64(FromLE64(bytes)) == bytes
  {
    hide LE32, FromLE32;
    LE32OfFromLE32(bytes[..4]);
    LE32OfFromLE32(bytes[4..]);
    assert FromLE64(bytes) % TWO32 == FromLE32(bytes[..4]) && FromLE64(bytes) / TWO32 == FromLE32(bytes[4..]);
  }

  // ---------------------------------------------------------------- numbers and bit vectors

  // The bit operations below have names so that proofs about numbers can leave the bits alone.

  function Half(x: bv64): bv64 { x >> 1 }
  function Twice(x: bv64): bv64 { x << 1 }
  function TwicePlus(x: bv64): bv64 { (x << 1) | 1 }
  function Low56(x: bv64): bv64 { x & 0xFF_FFFF_FFFF_FFFF }
  function High56(x: bv64): bv64 { x >> 56 }
  function Low55(x: bv64): bv64 { x & 0x7F_FFFF_FFFF_FFFF }
  function High55(x: bv64): bv64 { x >> 55 }
  function FlipBit55(x: bv64): bv64 { x ^ 0x80_0000_0000_0000 }
  function FlipBit0(x: bv64): bv64 { x ^ 1 }

  lemma BitsOfNum(x: bv64)
    ensures Bits(Num(x)) == x
  {
  }

  lemma NumInRange(x: bv64)
    ensures Num(x) < TWO64
  {
  }

  lemma DoubledBits(x: bv64)
    requires x < 0x8000_0000_0000_0000
    ensures Num(Twice(x)) == 2 * Num(x)
    ensures Num(TwicePlus(x)) == 2 * Num(x) + 1
  {
  }

  lemma SmallBits(x: bv64)
    requires Num(x) < 0x8000_0000_0000_0000
    ensures x < 0x8000_0000_0000_0000
  {
  }

  lemma Doubled(x: bv64)
    requires Num(x) < 0x8000_0000_0000_0000
    ensures Num(Twice(x)) == 2 * Num(x)
    ensures Num(TwicePlus(x)) == 2 * Num(x) + 1
  {
    hide Num, Twice, TwicePlus;
    SmallBits(x);
    DoubledBits(x);
  }

  /** Every number in range has its bits. */
  lemma {:induction false} BitsExist(n: nat) returns (x: bv64)
    requires n < TWO64
    ensures Num(x) == n
  {
    if n == 0 {
      x := 0;
    } else {
      var half := BitsExist(n / 2);
      hide Num, Twice, TwicePlus;
      Doubled(half);
      x := if n % 2 == 0 then Twice(half) else TwicePlus(half);
    }
  }

  lemma NumOfBits(n: nat)
    requires n < TWO64
    ensures Num(Bits(n)) == n
  {
    hide Num, Bits;
    var x := BitsExist(n);
    BitsOfNum(x);
  }

  // ---------------------------------------------------------------- what the answer depends on

  const TWO56: nat := 0x100_0000_0000_0000
  const TWO55: nat := 0x80_0000_0000_0000

  lemma MaskIgnoresTop(x: bv64, y: bv64)
    requires Low56(x) == Low56(y)
    ensures Encrypt(x) == Encrypt(y)
  {
  }

  lemma SplitAt56(x: bv64)
    ensures Num(x) == Num(Low56(x)) + TWO56 * Num(High56(x))
  {
  }

  lemma ShiftedByte(x: bv64)
    requires x < 0x100_0000_0000_0000
    ensures Num(x << 8) == 256 * Num(x)
  {
  }

  lemma Below56(x: bv64)
    ensures Num(Low56(x)) < TWO56
  {
    hide Num;
    ShiftedByte(Low56(x));
    NumInRange(Low56(x) << 8);
  }

  /** The low seven bytes of a number are those of its bits. */
  lemma LowBits(n: nat, low: nat, top: nat)
    requires n < TWO64 && low < TWO56 && n == low + TWO56 * top
    ensures Low56(Bits(n)) == Bits(low)
  {
    hide Num, Bits, Low56, High56;
    var x := Bits(n);
    NumOfBits(n);
    SplitAt56(x);
    Below56(x);
    assert Num(Low56(x)) == low;
    BitsOfNum(Low56(x));
  }

  /** The masks of the puzzle leave out the top byte. */
  lemma AnswerIgnoresTop(low: nat, m: nat, a: nat, n: nat, b: nat)
    requires low < TWO56 && m < TWO64 && n < TWO64 && m == low + TWO56 * a && n == low + TWO56 * b
    ensures EncryptWord(m) == EncryptWord(n)
  {
    hide Num, Bits, Encrypt, Low56;
    LowBits(m, low, a);
    LowBits(n, low, b);
    MaskIgnoresTop(Bits(m), Bits(n));
  }

  lemma SplitAt55(x: bv64)
    ensures Num(x) == Num(Low55(x)) + TWO55 * Num(High55(x))
  {
  }

  lemma HalfIsSmall(x: bv64)
    ensures Half(x) < 0x8000_0000_0000_0000
  {
  }

  lemma LastBitClear(x: bv64)
    requires x & 1 == 0
    ensures x == Twice(Half(x)) && FlipBit0(x) == TwicePlus(Half(x))
  {
  }

  lemma LastBitSet(x: bv64)
    requires x & 1 == 1
    ensures x == TwicePlus(Half(x)) && FlipBit0(x) == Twice(Half(x))
  {
  }

  lemma LastBit(x: bv64)
    ensures x & 1 == 0 || x & 1 == 1
  {
  }

  lemma FlipLast(x: bv64)
    ensures Num(FlipBit0(x)) == Num(x) + 1 || Num(FlipBit0(x)) == Num(x) - 1
  {
    hide Num, FlipBit0, Half, Twice, TwicePlus;
    HalfIsSmall(x);
    DoubledBits(Half(x));
    LastBit(x);
    if x & 1 == 0 {
      LastBitClear(x);
    } else {
      LastBitSet(x);
    }
  }

  lemma FlipParts(x: bv64)
    ensures Low55(FlipBit55(x)) == Low55(x) && High55(FlipBit55(x)) == FlipBit0(High55(x))
  {
  }

  /** Bit 55 is the top bit of the last byte but one. */
  lemma FlipAsNumber(x: bv64)
    ensures Num(FlipBit55(x)) == Num(x) + TWO55 || Num(FlipBit55(x)) == Num(x) - TWO55
  {
    hide Num, Low55, High55, FlipBit55, FlipBit0;
    SplitAt55(x);
    SplitAt55(FlipBit55(x));
    FlipParts(x);
    FlipLast(High55(x));
  }

  lemma FlipShows(x: bv64)
    ensures Encrypt(FlipBit55(x)) != Encrypt(x)
  {
  }

  /** A word that differs in that bit. */
  function Flipped(n: nat): (n': nat)
    requires n < TWO64
    ensures n' < TWO64
  {
    Num(FlipBit55(Bits(n)))
  }

  /** The bit shows in the answer. */
  lemma FlippedAnswer(n: nat)
    requires n < TWO64
    ensures EncryptWord(Flipped(n)) != EncryptWord(n)
    ensures Flipped(n) == n + TWO55 || Flipped(n) == n - TWO55
  {
    hide Num, Bits, Encrypt, FlipBit55;
    var x := Bits(n);
    NumOfBits(n);
    FlipAsNumber(x);
    FlipShows(x);
    BitsOfNum(FlipBit55(x));
    BitsOfNum(Encrypt(FlipBit55(x)));
    BitsOfNum(Encrypt(x));
  }

  lemma SixBytesStay(n: nat, n': nat)
    requires n < TWO64 && n' < TWO64 && n' == n + TWO55
    ensures LE64(n)[..6] == LE64(n')[..6]
  {
    hide LE32;
    var m := n / TWO32;
    assert n' % TWO32 == n % TWO32 && n' / TWO32 == m + 0x80_0000;
    TwoBytesStay(m);
    assert LE64(n)[..6] == LE32(n % TWO32) + LE32(m)[..2];
    assert LE64(n')[..6] == LE32(n % TWO32) + LE32(m + 0x80_0000)[..2];
  }

  lemma TwoBytesStay(m: nat)
    requires m + 0x80_0000 < TWO32
    ensures LE32(m)[..2] == LE32(m + 0x80_0000)[..2]
  {
    var m' := m + 0x80_0000;
    FirstBytes(m);
    FirstBytes(m');
    hide LE32;
    var q := m / 256;
    assert m' / 256 == q + 0x8000 && m' % 256 == m % 256;
    assert (q + 0x8000) % 256 == q % 256;
  }

  lemma FirstBytes(m: nat)
    requires m < TWO32
    ensures LE32(m)[..2] == [m % 256, (m / 256) % 256]
  {
  }

  lemma FlippedBytes(n: nat)
    requires n < TWO64
    ensures LE64(n)[..6] == LE64(Flipped(n))[..6]
  {
    hide LE64, Flipped, EncryptWord;
    FlippedAnswer(n);
    if Flipped(n) == n + TWO55 {
      SixBytesStay(n, Flipped(n));
    } else {
      SixBytesStay(Flipped(n), n);
    }
  }

  /** A word by its first seven bytes and its last. */
  lemma TopByte(bytes: seq<byte>) returns (low: nat)
    requires |bytes| == HANDSHAKE_BYTES
    ensures low < TWO56 && FromLE64(bytes) == low + TWO56 * bytes[7]
    ensures low == FromLE64(bytes[..7] + [0])
  {
    var b: seq<nat> := [bytes[0], bytes[1], bytes[2], bytes[3], bytes[4], bytes[5], bytes[6]];
    var zeroed: seq<byte> := bytes[..7] + [0];
    assert zeroed[..4] == bytes[..4];
    assert zeroed[4..] == [bytes[4], bytes[5], bytes[6], 0];
    assert bytes[4..] == [bytes[4], bytes[5], bytes[6], bytes[7]];
    low := FromLE64(zeroed);
  }

  /** Words that agree on seven bytes have the same answer. */
  lemma SevenBytesDecide(x: seq<byte>, y: seq<byte>)
    requires |x| == |y| == HANDSHAKE_BYTES && x[..7] == y[..7]
    ensures EncryptWord(FromLE64(x)) == EncryptWord(FromLE64(y))
  {
    hide FromLE64, EncryptWord;
    var low := TopByte(x);
    var low' := TopByte(y);
    AnswerIgnoresTop(low, FromLE64(x), x[7], FromLE64(y), y[7]);
  }

  /** The first `k` bytes of a word determine the answer to it if and only if `k` is at least 7. */
  lemma AnswerDependsExact(k: nat)
    requires k <= HANDSHAKE_BYTES
    ensures (forall x: nat, y: nat :: x < TWO64 && y < TWO64 && LE64(x)[..k] == LE64(y)[..k] ==>
               EncryptWord(x) == EncryptWord(y))
            <==> k >= 7
  {
    hide LE64, FromLE64, EncryptWord, Flipped;
    if k >= 7 {
      forall x: nat, y: nat | x < TWO64 && y < TWO64 && LE64(x)[..k] == LE64(y)[..k]
        ensures EncryptWord(x) == EncryptWord(y)
      {
        FromLE64OfLE64(x);
        FromLE64OfLE64(y);
        assert LE64(x)[..7] == LE64(x)[..k][..7] && LE64(y)[..7] == LE64(y)[..k][..7];
        SevenBytesDecide(LE64(x), LE64(y));
      }
    } else {
      FlippedAnswer(0);
      FlippedBytes(0);
      assert LE64(0)[..k] == LE64(0)[..6][..k] && LE64(Flipped(0))[..k] == LE64(Flipped(0))[..6][..k];
    }
  }
}

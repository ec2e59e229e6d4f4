/**
 * What the puzzle of the handshake computes, byte by byte and on numbers: of every byte of the word
 * but the last it uses the upper half only, and the upper halves of neighbouring bytes are joined.
 */
module HandshakePuzzle {
  import opened Arith
  import opened Framing
  import opened HandshakeWords

  // ---------------------------------------------------------------- bits of numbers

  /** Bitwise or, and exclusive or, of numbers. */
  function Or(a: nat, b: nat): nat {
    if a == 0 && b == 0 then 0
    else (if a % 2 == 1 || b % 2 == 1 then 1 else 0) + 2 * Or(a / 2, b / 2)
  }

  function Xor(a: nat, b: nat): nat {
    if a == 0 && b == 0 then 0
    else (if a % 2 != b % 2 then 1 else 0) + 2 * Xor(a / 2, b / 2)
  }

  function Bit(x: bv64): nat {
    if x & 1 == 1 then 1 else 0
  }

  function BitOr(x: bv64, y: bv64): bv64 { x | y }
  function BitXor(x: bv64, y: bv64): bv64 { x ^ y }

  lemma HalfAndBit(x: bv64)
    ensures Num(x) == 2 * Num(Half(x)) + Bit(x)
  {
    hide Num, Half, Twice, TwicePlus;
    HalfIsSmall(x);
    DoubledBits(Half(x));
    LastBit(x);
    if x & 1 == 0 {
      LastBitClear(x);
    } else {
      LastBitSet(x);
    }
  }

  lemma IsBit(x: bv64)
    ensures Bit(x) == 0 || Bit(x) == 1
  {
  }

  lemma HalfOfOr(x: bv64, y: bv64)
    ensures Half(BitOr(x, y)) == BitOr(Half(x), Half(y))
  {
  }

  lemma BitOfOr(x: bv64, y: bv64)
    ensures Bit(BitOr(x, y)) == if Bit(x) == 1 || Bit(y) == 1 then 1 else 0
  {
  }

  lemma HalfOfXor(x: bv64, y: bv64)
    ensures Half(BitXor(x, y)) == BitXor(Half(x), Half(y))
  {
  }

  lemma BitOfXor(x: bv64, y: bv64)
    ensures Bit(BitXor(x, y)) == if Bit(x) != Bit(y) then 1 else 0
  {
  }

  lemma Nothing(x: bv64, y: bv64)
    requires Num(x) == 0 && Num(y) == 0
    ensures Num(BitOr(x, y)) == 0 && Num(BitXor(x, y)) == 0
  {
    BitsOfNum(x);
    BitsOfNum(y);
    assert x == 0 && y == 0;
  }

  /** The last bit of a number and the others. */
  lemma NumHalves(n: nat, half: nat, bit: nat)
    requires n == 2 * half + bit && bit <= 1
    ensures n / 2 == half && n % 2 == bit
  {
  }

  lemma Halves(x: bv64)
    ensures Num(x) / 2 == Num(Half(x)) && Num(x) % 2 == Bit(x)
  {
    hide Num, Half, Bit;
    HalfAndBit(x);
    IsBit(x);
    NumHalves(Num(x), Num(Half(x)), Bit(x));
  }

  lemma {:induction false} OrOfBits(x: bv64, y: bv64)
    ensures Num(BitOr(x, y)) == Or(Num(x), Num(y))
    decreases Num(x) + Num(y)
  {
    hide Num, Half, BitOr, BitXor, Bit;
    if Num(x) == 0 && Num(y) == 0 {
      Nothing(x, y);
    } else {
      Halves(x);
      Halves(y);
      HalfAndBit(BitOr(x, y));
      HalfOfOr(x, y);
      BitOfOr(x, y);
      OrOfBits(Half(x), Half(y));
    }
  }

  lemma {:induction false} XorOfBits(x: bv64, y: bv64)
    ensures Num(BitXor(x, y)) == Xor(Num(x), Num(y))
    decreases Num(x) + Num(y)
  {
    hide Num, Half, BitOr, BitXor, Bit;
    if Num(x) == 0 && Num(y) == 0 {
      Nothing(x, y);
    } else {
      Halves(x);
      Halves(y);
      HalfAndBit(BitXor(x, y));
      HalfOfXor(x, y);
      BitOfXor(x, y);
      XorOfBits(Half(x), Half(y));
    }
  }

  // ---------------------------------------------------------------- half bytes

  function Lower(x: bv64): bv64 { x & 0xF }
  function Upper(x: bv64): bv64 { x >> 4 }

  lemma FourBits(x: bv64)
    ensures var h1 := Half(x); var h2 := Half(h1); var h3 := Half(h2);
            Num(x) == Bit(x) + 2 * Bit(h1) + 4 * Bit(h2) + 8 * Bit(h3) + 16 * Num(Half(h3))
  {
    hide Num, Half, Bit;
    HalfAndBit(x);
    HalfAndBit(Half(x));
    HalfAndBit(Half(Half(x)));
    HalfAndBit(Half(Half(Half(x))));
  }

  lemma UpperIsHalves(x: bv64)
    ensures Half(Half(Half(Half(x)))) == Upper(x)
    ensures Half(Half(Half(Half(Lower(x))))) == 0
  {
  }

  lemma LowerBits(x: bv64)
    ensures Bit(Lower(x)) == Bit(x)
    ensures Bit(Half(Lower(x))) == Bit(Half(x))
    ensures Bit(Half(Half(Lower(x)))) == Bit(Half(Half(x)))
    ensures Bit(Half(Half(Half(Lower(x))))) == Bit(Half(Half(Half(x))))
  {
  }

  lemma Zero()
    ensures Num(0) == 0
  {
  }

  lemma SplitAt4(x: bv64)
    ensures Num(x) == Num(Lower(x)) + 16 * Num(Upper(x)) && Num(Lower(x)) < 16
  {
    hide Num, Half, Bit, Lower, Upper;
    FourBits(x);
    FourBits(Lower(x));
    UpperIsHalves(x);
    LowerBits(x);
    Zero();
    IsBit(x);
    IsBit(Half(x));
    IsBit(Half(Half(x)));
    IsBit(Half(Half(Half(x))));
  }

  /** A word without its first `k` bytes, and a number without them. */
  function Drop(x: bv64, k: nat): bv64 {
    match k
    case 0 => x
    case 1 => x >> 8
    case 2 => x >> 16
    case 3 => x >> 24
    case 4 => x >> 32
    case 5 => x >> 40
    case 6 => x >> 48
    case _ => x >> 56
  }

  function DropNum(n: nat, k: nat): nat {
    if k == 0 then n else DropNum(n, k - 1) / 256
  }

  lemma Drop1(x: bv64)
    ensures Drop(x, 1) == Upper(Upper(Drop(x, 0)))
  {
  }

  lemma Drop2(x: bv64)
    ensures Drop(x, 2) == Upper(Upper(Drop(x, 1)))
  {
  }

  lemma Drop3(x: bv64)
    ensures Drop(x, 3) == Upper(Upper(Drop(x, 2)))
  {
  }

  lemma Drop4(x: bv64)
    ensures Drop(x, 4) == Upper(Upper(Drop(x, 3)))
  {
  }

  lemma Drop5(x: bv64)
    ensures Drop(x, 5) == Upper(Upper(Drop(x, 4)))
  {
  }

  lemma Drop6(x: bv64)
    ensures Drop(x, 6) == Upper(Upper(Drop(x, 5)))
  {
  }

  lemma Drop7(x: bv64)
    ensures Drop(x, 7) == Upper(Upper(Drop(x, 6)))
  {
  }

  lemma NextDrop(x: bv64, k: nat)
    requires 0 < k < 8
    ensures Drop(x, k) == Upper(Upper(Drop(x, k - 1)))
  {
    hide Drop, Upper;
    match k
    case 1 => Drop1(x);
    case 2 => Drop2(x);
    case 3 => Drop3(x);
    case 4 => Drop4(x);
    case 5 => Drop5(x);
    case 6 => Drop6(x);
    case _ => Drop7(x);
  }

  /** A byte's two halves. */
  lemma HalvesOfNum(x: bv64)
    ensures Num(x) / 256 == Num(Upper(Upper(x)))
    ensures Num(x) % 16 == Num(Lower(x)) && Num(x) % 256 / 16 == Num(Lower(Upper(x)))
  {
    hide Num, Lower, Upper;
    SplitAt4(x);
    SplitAt4(Upper(x));
  }

  lemma {:induction false} DropOfNum(x: bv64, k: nat)
    requires k < 8
    ensures Num(Drop(x, k)) == DropNum(Num(x), k)
  {
    hide Num, Upper;
    if k > 0 {
      DropOfNum(x, k - 1);
      NextDrop(x, k);
      hide Drop;
      HalvesOfNum(Drop(x, k - 1));
    }
  }

  // ---------------------------------------------------------------- the puzzle by half bytes

  /** What the upper halves of the bytes are combined with, and the two halves of the answer's bytes. */
  const KEY: seq<nat> := [15, 12, 13, 12, 14, 11, 10]
  const UPPER: seq<nat> := [7, 5, 3, 1, 12, 15, 13, 12]
  const LOWER: seq<nat> := [8, 6, 4, 2, 14, 10, 14, 0]

  // The same as bits.

  function KeyBits(k: nat): bv64 {
    match k
    case 0 => 15
    case 1 => 12
    case 2 => 13
    case 3 => 12
    case 4 => 14
    case 5 => 11
    case _ => 10
  }

  function UpperBits(k: nat): bv64 {
    match k
    case 0 => 7
    case 1 => 5
    case 2 => 3
    case 3 => 1
    case 4 => 12
    case 5 => 15
    case 6 => 13
    case _ => 12
  }

  function LowerBits8(k: nat): bv64 {
    match k
    case 0 => 8
    case 1 => 6
    case 2 => 4
    case 3 => 2
    case 4 => 14
    case 5 => 10
    case 6 => 14
    case _ => 0
  }

  lemma ConstantBits(k: nat)
    requires k < 8
    ensures k < 7 ==> Num(KeyBits(k)) == KEY[k]
    ensures Num(UpperBits(k)) == UPPER[k] && Num(LowerBits8(k)) == LOWER[k]
  {
  }

  /** The upper half of byte `j`, as the puzzle takes it up; of the last byte and beyond nothing. */
  function KeptBits(x: bv64, j: int): bv64 {
    if 0 <= j < 7 then BitXor(Lower(Upper(Drop(x, j))), KeyBits(j)) else 0
  }

  lemma UpperHalves(x: bv64, k: nat)
    requires k < 8
    ensures Lower(Upper(Drop(Encrypt(x), k))) == UpperBits(k)
  {
  }

  lemma LowerHalf0(x: bv64)
    ensures Lower(Drop(Encrypt(x), 0)) == BitXor(BitOr(KeptBits(x, 0), KeptBits(x, -1)), LowerBits8(0))
  {
  }

  lemma LowerHalf1(x: bv64)
    ensures Lower(Drop(Encrypt(x), 1)) == BitXor(BitOr(KeptBits(x, 1), KeptBits(x, 0)), LowerBits8(1))
  {
  }

  lemma LowerHalf2(x: bv64)
    ensures Lower(Drop(Encrypt(x), 2)) == BitXor(BitOr(KeptBits(x, 2), KeptBits(x, 1)), LowerBits8(2))
  {
  }

  lemma LowerHalf3(x: bv64)
    ensures Lower(Drop(Encrypt(x), 3)) == BitXor(BitOr(KeptBits(x, 3), KeptBits(x, 2)), LowerBits8(3))
  {
  }

  lemma LowerHalf4(x: bv64)
    ensures Lower(Drop(Encrypt(x), 4)) == BitXor(BitOr(KeptBits(x, 4), KeptBits(x, 3)), LowerBits8(4))
  {
  }

  lemma LowerHalf5(x: bv64)
    ensures Lower(Drop(Encrypt(x), 5)) == BitXor(BitOr(KeptBits(x, 5), KeptBits(x, 4)), LowerBits8(5))
  {
  }

  lemma LowerHalf6(x: bv64)
    ensures Lower(Drop(Encrypt(x), 6)) == BitXor(BitOr(KeptBits(x, 6), KeptBits(x, 5)), LowerBits8(6))
  {
  }

  lemma LowerHalf7(x: bv64)
    ensures Lower(Drop(Encrypt(x), 7)) == BitXor(BitOr(KeptBits(x, 7), KeptBits(x, 6)), LowerBits8(7))
  {
  }

  lemma LowerHalves(x: bv64, k: nat)
    requires k < 8
    ensures Lower(Drop(Encrypt(x), k)) == BitXor(BitOr(KeptBits(x, k), KeptBits(x, k - 1)), LowerBits8(k))
  {
    hide Lower, Drop, Encrypt, KeptBits, LowerBits8, BitXor, BitOr;
    match k
    case 0 => LowerHalf0(x);
    case 1 => LowerHalf1(x);
    case 2 => LowerHalf2(x);
    case 3 => LowerHalf3(x);
    case 4 => LowerHalf4(x);
    case 5 => LowerHalf5(x);
    case 6 => LowerHalf6(x);
    case _ => LowerHalf7(x);
  }

  // ---------------------------------------------------------------- the puzzle on numbers

  lemma DropMore(n: nat)
    ensures forall k :: 0 <= k < 4 ==> DropNum(n, k + 4) == DropNum(n / TWO32, k)
  {
    DropBytes(n);
    DropBytes(n / TWO32);
    assert DropNum(n, 4) == DropNum(n, 3) / 256;
    assert DropNum(n, 5) == DropNum(n, 4) / 256;
    assert DropNum(n, 6) == DropNum(n, 5) / 256;
    assert DropNum(n, 7) == DropNum(n, 6) / 256;
  }

  lemma LE32Drop(n: nat, k: nat)
    requires n < TWO32 && k < 4
    ensures LE32(n)[k] == DropNum(n, k) % 256
  {
    LE32At(n, k);
    Powers();
    DropBytes(n);
  }

  lemma AddMultiple(a: nat, m: nat)
    ensures (a + 256 * m) / 256 == a / 256 + m && (a + 256 * m) % 256 == a % 256
  {
  }

  lemma LowerWord(n: nat, k: nat)
    requires k < 4
    ensures DropNum(n % TWO32, k) % 256 == DropNum(n, k) % 256
  {
    var lower, q := n % TWO32, n / TWO32;
    DropBytes(n);
    DropBytes(lower);
    hide DropNum;
    SameBytes(n, lower, q);
  }

  lemma SameBytes(n: nat, lower: nat, q: nat)
    requires n == lower + TWO32 * q
    ensures n % 256 == lower % 256 && n / 256 % 256 == lower / 256 % 256
    ensures n / 256 / 256 % 256 == lower / 256 / 256 % 256
    ensures n / 256 / 256 / 256 % 256 == lower / 256 / 256 / 256 % 256
  {
    var n1, l1 := n / 256, lower / 256;
    AddMultiple(lower, 0x100_0000 * q);
    assert n1 == l1 + 256 * (0x1_0000 * q);
    AddMultiple(l1, 0x1_0000 * q);
    assert n1 / 256 == l1 / 256 + 256 * (0x100 * q);
    AddMultiple(l1 / 256, 0x100 * q);
    AddMultiple(l1 / 256 / 256, q);
  }

  lemma DropBytes(n: nat)
    ensures DropNum(n, 0) == n && DropNum(n, 1) == n / 256
    ensures DropNum(n, 2) == n / 256 / 256 && DropNum(n, 3) == n / 256 / 256 / 256
  {
    assert DropNum(n, 1) == DropNum(n, 0) / 256;
    assert DropNum(n, 2) == DropNum(n, 1) / 256;
    assert DropNum(n, 3) == DropNum(n, 2) / 256;
  }

  /** Byte number `k` of a word as it lies in memory. */
  lemma LE64Drop(n: nat, k: nat)
    requires n < TWO64 && k < 8
    ensures LE64(n)[k] == DropNum(n, k) % 256
  {
    hide LE32, DropNum;
    if k < 4 {
      LE32Drop(n % TWO32, k);
      LowerWord(n, k);
    } else {
      LE32Drop(n / TWO32, k - 4);
      DropMore(n);
    }
  }

  /** The two halves of a byte of a word. */
  lemma HalvesOfByte(x: bv64, k: nat)
    requires k < 8 && Num(x) < TWO64
    ensures LE64(Num(x))[k] / 16 == Num(Lower(Upper(Drop(x, k)))) && LE64(Num(x))[k] % 16 == Num(Lower(Drop(x, k)))
  {
    hide Num, Lower, Upper, Drop, DropNum, LE64;
    LE64Drop(Num(x), k);
    DropOfNum(x, k);
    HalvesOfNum(Drop(x, k));
  }

  /** The upper half of byte `j`, as the puzzle takes it up; of the last byte nothing. */
  function Kept(n: nat, j: int): nat
    requires n < TWO64
  {
    if 0 <= j < 7 then Xor(LE64(n)[j] / 16, KEY[j]) else 0
  }

  lemma KeptOfBits(x: bv64, j: int)
    requires -1 <= j < 8 && Num(x) < TWO64
    ensures Num(KeptBits(x, j)) == Kept(Num(x), j)
  {
    hide Num, Lower, Upper, Drop, BitXor, Xor, LE64, KeyBits;
    if 0 <= j < 7 {
      HalvesOfByte(x, j);
      ConstantBits(j);
      XorOfBits(Lower(Upper(Drop(x, j))), KeyBits(j));
    } else {
      Zero();
    }
  }

  /**
   * The puzzle, exactly, for every word: the upper half of every byte of the answer is a constant;
   * the lower half of byte `k` is the upper half of byte `k` of the word joined with that of the
   * byte before it, each combined with the key, and a constant.
   */
  lemma PuzzleExact(n: nat, k: nat)
    requires n < TWO64 && k < 8
    ensures LE64(EncryptWord(n))[k] / 16 == UPPER[k]
    ensures LE64(EncryptWord(n))[k] % 16 == Xor(Or(Kept(n, k), Kept(n, k - 1)), LOWER[k])
  {
    hide Num, Bits, Encrypt, Lower, Upper, Drop, BitXor, BitOr, Xor, Or, LE64, KeptBits, Kept, UpperBits, LowerBits8;
    var x := Bits(n);
    NumOfBits(n);
    NumInRange(Encrypt(x));
    HalvesOfByte(Encrypt(x), k);
    ConstantBits(k);
    UpperHalves(x, k);
    LowerHalves(x, k);
    KeptOfBits(x, k);
    KeptOfBits(x, k - 1);
    XorOfBits(BitOr(KeptBits(x, k), KeptBits(x, k - 1)), LowerBits8(k));
    OrOfBits(KeptBits(x, k), KeptBits(x, k - 1));
  }
}

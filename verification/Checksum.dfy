/**
 * The CRC that guards every stored record: CRC-16 with initial value 0xFFFF and the generator
 * x^16 + x^12 + x^5 + 1 of ITU-T V.41, section 2. A register is its bits, highest power first.
 */
module Checksum {
  import opened Bytes

  type Bits = seq<bool>
  type Register = r: Bits | |r| == 16 witness seq(16, _ => false)

  /** 0x1021: the generator without its leading term. */
  const GENERATOR: Register := [false, false, false, true, false, false, false, false,
                                false, false, true, false, false, false, false, true]
  /** 0xFFFF. */
  const INITIAL: Register := [true, true, true, true, true, true, true, true,
                              true, true, true, true, true, true, true, true]

  function Zeros(n: nat): Bits {
    seq(n, _ => false)
  }

  function Xor(a: Bits, b: Bits): (r: Bits)
    requires |a| == |b|
    ensures |r| == |a|
    ensures forall i :: 0 <= i < |a| ==> r[i] == (a[i] != b[i])
  {
    seq(|a|, i requires 0 <= i < |a| => a[i] != b[i])
  }

  /** One step of the division: shift left, subtracting the generator when a bit falls out. */
  function ShiftBit(r: Register): Register {
    var shifted := r[1..] + [false];
    if r[0] then Xor(shifted, GENERATOR) else shifted
  }

  function ShiftBits(r: Register, count: nat): Register
    decreases count, r
  {
    if count == 0 then r else ShiftBits(ShiftBit(r), count - 1)
  }

  /** A byte enters the register through its upper half. */
  function Feed(r: Register, b: byte): Register {
    ShiftBits(Xor(r, BitsOf(b, 8) + Zeros(8)), 8)
  }

  function FeedAll(r: Register, data: seq<byte>): Register
    decreases |data|
  {
    if data == [] then r else FeedAll(Feed(r, data[0]), data[1..])
  }

  function Crc16(data: seq<byte>): u16 {
    Number16(FeedAll(INITIAL, data))
  }

  /** The firmware's loop, byte by byte and bit by bit. */
  method Crc16Ccitt(data: seq<byte>) returns (crc: u16)
    ensures crc == Crc16(data)
  {
    hide BitsOf, ShiftBit, Number;
    var r: Register := INITIAL;
    for i := 0 to |data|
      invariant FeedAll(r, data[i..]) == FeedAll(INITIAL, data)
    {
      assert data[i..][1..] == data[i + 1..];
      r := Xor(r, BitsOf(data[i], 8) + Zeros(8));
      ghost var entered := r;
      for bit := 0 to 8
        invariant ShiftBits(r, 8 - bit) == ShiftBits(entered, 8)
      {
        r := ShiftBit(r);
      }
    }
    crc := Number16(r);
  }

  // ---- Numbers and their bits ---------------------------------------------------------------

  predicate Bit(v: nat, k: nat)
    decreases k, v
  {
    if k == 0 then v % 2 == 1 else Bit(v / 2, k - 1)
  }

  /** The `n` low bits of `v`, highest first. */
  function BitsOf(v: nat, n: nat): (r: Bits)
    ensures |r| == n
  {
    seq(n, i requires 0 <= i < n => Bit(v, n - 1 - i))
  }

  function Number(r: Bits): nat {
    if r == [] then 0 else 2 * Number(r[..|r| - 1]) + (if r[|r| - 1] then 1 else 0)
  }

  function Pow2(n: nat): nat {
    if n == 0 then 1 else 2 * Pow2(n - 1)
  }

  lemma {:induction false} NumberBound(r: Bits)
    ensures Number(r) < Pow2(|r|)
  {
    if r != [] {
      NumberBound(r[..|r| - 1]);
    }
  }

  lemma {:induction false} Number16Bound(r: Register)
    ensures Number(r) < 0x1_0000
  {
    NumberBound(r);
    assert Pow2(16) == 16 * Pow2(12) == 256 * Pow2(8) == 4096 * Pow2(4);
  }

  function Number16(r: Register): u16 {
    Number16Bound(r);
    Number(r)
  }

  lemma {:induction false} NumberOfOnes(n: nat)
    ensures Number(seq(n, _ => true)) == Pow2(n) - 1
  {
    if n != 0 {
      assert seq(n, _ => true)[..n - 1] == seq(n - 1, _ => true);
      NumberOfOnes(n - 1);
    }
  }

  /** The register starts as all ones: the checksum of no data at all. */
  lemma {:induction false} ChecksumOfNothing()
    ensures Crc16([]) == 0xFFFF
  {
    NumberOfOnes(16);
    assert INITIAL == seq(16, _ => true);
    assert Pow2(16) == 16 * Pow2(12) == 256 * Pow2(8) == 4096 * Pow2(4);
  }

  lemma {:induction false} NumberInjective(a: Bits, b: Bits)
    requires |a| == |b| && Number(a) == Number(b)
    ensures a == b
  {
    if a != [] {
      var n := |a| - 1;
      NumberInjective(a[..n], b[..n]);
      assert a == a[..n] + [a[n]] && b == b[..n] + [b[n]];
    }
  }

  lemma {:induction false} BitsDetermine(v: nat, w: nat, n: nat)
    requires v < Pow2(n) && w < Pow2(n) && forall k :: 0 <= k < n ==> Bit(v, k) == Bit(w, k)
    ensures v == w
    decreases n
  {
    if n != 0 {
      assert Bit(v, 0) == Bit(w, 0);
      forall k | 0 <= k < n - 1
        ensures Bit(v / 2, k) == Bit(w / 2, k)
      {
        assert Bit(v, k + 1) == Bit(w, k + 1);
      }
      BitsDetermine(v / 2, w / 2, n - 1);
    }
  }

  lemma {:induction false} BitsOfInjective(v: nat, w: nat, n: nat)
    requires v < Pow2(n) && w < Pow2(n) && BitsOf(v, n) == BitsOf(w, n)
    ensures v == w
  {
    forall k | 0 <= k < n
      ensures Bit(v, k) == Bit(w, k)
    {
      assert BitsOf(v, n)[n - 1 - k] == BitsOf(w, n)[n - 1 - k];
    }
    BitsDetermine(v, w, n);
  }

  lemma {:induction false} ByteBitsInjective(x: byte, y: byte)
    requires BitsOf(x, 8) == BitsOf(y, 8)
    ensures x == y
  {
    assert Pow2(8) == 16 * Pow2(4);
    BitsOfInjective(x, y, 8);
  }

  // ---- Algebra of the division --------------------------------------------------------------

  lemma {:induction false} XorInjective(a: Bits, b: Bits, c: Bits)
    requires |a| == |b| == |c| && Xor(a, c) == Xor(b, c)
    ensures a == b
  {
    forall i | 0 <= i < |a|
      ensures a[i] == b[i]
    {
      assert Xor(a, c)[i] == Xor(b, c)[i];
    }
  }

  /** The generator ends in a one, so the last bit remembers whether it was subtracted. */
  lemma {:induction false} ShiftBitInjective(a: Register, b: Register)
    requires ShiftBit(a) == ShiftBit(b)
    ensures a == b
  {
    assert ShiftBit(a)[15] == a[0] && ShiftBit(b)[15] == b[0];
    var s, t := a[1..] + [false], b[1..] + [false];
    if a[0] {
      XorInjective(s, t, GENERATOR);
    }
    forall i | 0 < i < 16
      ensures a[i] == b[i]
    {
      assert s[i - 1] == t[i - 1];
    }
  }

  lemma {:induction false} ShiftBitsInjective(a: Register, b: Register, count: nat)
    requires ShiftBits(a, count) == ShiftBits(b, count)
    ensures a == b
    decreases count
  {
    if count != 0 {
      ShiftBitsInjective(ShiftBit(a), ShiftBit(b), count - 1);
      ShiftBitInjective(a, b);
    }
  }

  /** Division is linear: the remainder of a difference is the difference of the remainders. */
  lemma {:induction false} ShiftBitsLinear(a: Register, b: Register, count: nat)
    ensures ShiftBits(Xor(a, b), count) == Xor(ShiftBits(a, count), ShiftBits(b, count))
    decreases count
  {
    if count != 0 {
      assert ShiftBit(Xor(a, b)) == Xor(ShiftBit(a), ShiftBit(b));
      ShiftBitsLinear(ShiftBit(a), ShiftBit(b), count - 1);
    }
  }

  /** While only zeros fall out, a shift merely moves the bits up. */
  lemma {:induction false} ShiftBitsUp(r: Register, count: nat)
    requires count <= 16 && forall i :: 0 <= i < count ==> !r[i]
    ensures ShiftBits(r, count) == r[count..] + Zeros(count)
    decreases count
  {
    if count != 0 {
      ShiftBitsUp(ShiftBit(r), count - 1);
    }
  }

  lemma {:induction false} XorHalves(r: Register, hi: Bits, lo: Bits)
    requires |hi| == |lo| == 8
    ensures Xor(Xor(r, hi + Zeros(8)), Zeros(8) + lo) == Xor(r, hi + lo)
  {
  }

  lemma {:induction false} ByteMovesUp(y: byte)
    ensures ShiftBits(Zeros(8) + BitsOf(y, 8), 8) == BitsOf(y, 8) + Zeros(8)
  {
    ShiftBitsUp(Zeros(8) + BitsOf(y, 8), 8);
  }

  /** Two bytes fed in a row are one sixteen-bit word divided at once. */
  lemma {:induction false} FeedTwo(r: Register, x: byte, y: byte)
    ensures Feed(Feed(r, x), y) == ShiftBits(ShiftBits(Xor(r, BitsOf(x, 8) + BitsOf(y, 8)), 8), 8)
  {
    var hi, lo: Register := BitsOf(x, 8), Zeros(8) + BitsOf(y, 8);
    var entered: Register := Xor(r, hi + Zeros(8));
    ByteMovesUp(y);
    ShiftBitsLinear(entered, lo, 8);
    XorHalves(r, hi, BitsOf(y, 8));
  }

  lemma {:induction false} FeedInjective(a: Register, b: Register, x: byte)
    requires Feed(a, x) == Feed(b, x)
    ensures a == b
  {
    var w := BitsOf(x, 8) + Zeros(8);
    ShiftBitsInjective(Xor(a, w), Xor(b, w), 8);
    XorInjective(a, b, w);
  }

  lemma {:induction false} FeedTwoInjective(r: Register, x: byte, y: byte, x': byte, y': byte)
    requires Feed(Feed(r, x), y) == Feed(Feed(r, x'), y')
    ensures x == x' && y == y'
  {
    FeedTwo(r, x, y);
    FeedTwo(r, x', y');
    var w, w' := BitsOf(x, 8) + BitsOf(y, 8), BitsOf(x', 8) + BitsOf(y', 8);
    ShiftBitsInjective(ShiftBits(Xor(r, w), 8), ShiftBits(Xor(r, w'), 8), 8);
    ShiftBitsInjective(Xor(r, w), Xor(r, w'), 8);
    assert Xor(r, w) == Xor(w, r) && Xor(r, w') == Xor(w', r);
    XorInjective(w, w', r);
    assert w[..8] == BitsOf(x, 8) && w'[..8] == BitsOf(x', 8);
    assert w[8..] == BitsOf(y, 8) && w'[8..] == BitsOf(y', 8);
    ByteBitsInjective(x, x');
    ByteBitsInjective(y, y');
  }

  lemma {:induction false} FeedAllAppend(r: Register, a: seq<byte>, b: seq<byte>)
    ensures FeedAll(r, a + b) == FeedAll(FeedAll(r, a), b)
    decreases |a|
  {
    if a == [] {
      assert a + b == b;
    } else {
      assert (a + b)[1..] == a[1..] + b;
      FeedAllAppend(Feed(r, a[0]), a[1..], b);
    }
  }

  lemma {:induction false} FeedAllInjective(a: Register, b: Register, data: seq<byte>)
    requires FeedAll(a, data) == FeedAll(b, data)
    ensures a == b
    decreases |data|
  {
    if data != [] {
      FeedAllInjective(Feed(a, data[0]), Feed(b, data[0]), data[1..]);
      FeedInjective(a, b, data[0]);
    }
  }

  // ---- What the checksum detects ------------------------------------------------------------

  /** `damaged` differs from `data` only inside one byte, or inside two adjacent ones. */
  ghost predicate Burst(data: seq<byte>, damaged: seq<byte>) {
    |data| == |damaged| && data != damaged && exists i: nat :: i < |data| && BurstAt(data, damaged, i)
  }

  ghost predicate BurstAt(data: seq<byte>, damaged: seq<byte>, i: nat)
    requires |data| == |damaged|
  {
    forall j :: 0 <= j < |data| && j != i && j != i + 1 ==> data[j] == damaged[j]
  }

  /** Any such burst, anywhere in a record of any length, changes the checksum. */
  lemma {:induction false} BurstDetected(data: seq<byte>, damaged: seq<byte>)
    requires Burst(data, damaged)
    ensures Crc16(data) != Crc16(damaged)
  {
    hide FeedAll, Number;
    var i: nat :| i < |data| && BurstAt(data, damaged, i);
    if Crc16(data) == Crc16(damaged) {
      NumberInjective(FeedAll(INITIAL, data), FeedAll(INITIAL, damaged));
      assert data[..i] == damaged[..i];
      if i + 1 == |data| {
        LastByteSeen(data, damaged, i);
      } else {
        PairSeen(data, damaged, i);
      }
    }
  }

  lemma {:induction false} LastByteSeen(data: seq<byte>, damaged: seq<byte>, i: nat)
    requires i + 1 == |data| == |damaged| && data[..i] == damaged[..i]
    requires FeedAll(INITIAL, data) == FeedAll(INITIAL, damaged)
    ensures data[i] == damaged[i]
  {
    hide Feed, BitsOf;
    SplitFeed(data, i, 1);
    SplitFeed(damaged, i, 1);
    var r := FeedAll(INITIAL, data[..i]);
    assert data[i..i + 1] == [data[i]] && damaged[i..i + 1] == [damaged[i]];
    assert FeedAll(r, [data[i]]) == Feed(r, data[i]) && FeedAll(r, [damaged[i]]) == Feed(r, damaged[i]);
    FeedTwoInjective(r, data[i], 0, damaged[i], 0);
  }

  lemma {:induction false} PairSeen(data: seq<byte>, damaged: seq<byte>, i: nat)
    requires i + 2 <= |data| == |damaged|
    requires data[..i] == damaged[..i] && data[i + 2..] == damaged[i + 2..]
    requires FeedAll(INITIAL, data) == FeedAll(INITIAL, damaged)
    ensures data[i] == damaged[i] && data[i + 1] == damaged[i + 1]
  {
    hide Feed;
    SplitFeed(data, i, 2);
    SplitFeed(damaged, i, 2);
    var r := FeedAll(INITIAL, data[..i]);
    FeedAllInjective(FeedAll(r, data[i..i + 2]), FeedAll(r, damaged[i..i + 2]), data[i + 2..]);
    FeedPair(r, data, i);
    FeedPair(r, damaged, i);
    FeedTwoInjective(r, data[i], data[i + 1], damaged[i], damaged[i + 1]);
  }

  lemma {:induction false} SplitFeed(data: seq<byte>, i: nat, n: nat)
    requires i + n <= |data|
    ensures FeedAll(INITIAL, data) ==
            FeedAll(FeedAll(FeedAll(INITIAL, data[..i]), data[i..i + n]), data[i + n..])
  {
    assert data == data[..i] + (data[i..i + n] + data[i + n..]);
    FeedAllAppend(INITIAL, data[..i], data[i..i + n] + data[i + n..]);
    FeedAllAppend(FeedAll(INITIAL, data[..i]), data[i..i + n], data[i + n..]);
  }

  lemma {:induction false} FeedPair(r: Register, data: seq<byte>, i: nat)
    requires i + 2 <= |data|
    ensures FeedAll(r, data[i..i + 2]) == Feed(Feed(r, data[i]), data[i + 1])
  {
    var pair := data[i..i + 2];
    assert pair[1..] == [data[i + 1]] && pair[1..][1..] == [];
    assert FeedAll(Feed(r, pair[0]), pair[1..]) == FeedAll(Feed(Feed(r, pair[0]), pair[1]), []);
  }

  // ---- Changes across the seal --------------------------------------------------------------

  lemma {:induction false} NumberOfBits(r: Bits, k: nat)
    requires k < |r|
    ensures Bit(Number(r), k) == r[|r| - 1 - k]
    decreases |r|
  {
    var n := |r| - 1;
    assert Number(r) / 2 == Number(r[..n]);
    if k != 0 {
      NumberOfBits(r[..n], k - 1);
    }
  }

  /** A number written in bits and read back. */
  lemma {:induction false} BitsOfNumber(r: Bits)
    ensures BitsOf(Number(r), |r|) == r
  {
    forall i | 0 <= i < |r|
      ensures BitsOf(Number(r), |r|)[i] == r[i]
    {
      NumberOfBits(r, |r| - 1 - i);
    }
  }

  function Doubled(x: nat, n: nat): nat
    decreases n
  {
    if n == 0 then x else 2 * Doubled(x, n - 1)
  }

  lemma {:induction false} NumberAppend(hi: Bits, lo: Bits)
    ensures Number(hi + lo) == Doubled(Number(hi), |lo|) + Number(lo)
    decreases |lo|
  {
    if lo == [] {
      assert hi + lo == hi;
    } else {
      var n := |lo| - 1;
      assert (hi + lo)[..|hi| + n] == hi + lo[..n];
      NumberAppend(hi, lo[..n]);
    }
  }

  lemma {:induction false} NumberHalves(hi: Bits, lo: Bits)
    requires |lo| == 8
    ensures Number(hi + lo) == 0x100 * Number(hi) + Number(lo)
  {
    hide Number;
    NumberAppend(hi, lo);
    var x := Number(hi);
    assert Doubled(x, 8) == 16 * Doubled(x, 4);
  }

  lemma {:induction false} ByteNumber(r: Bits)
    requires |r| == 8
    ensures Number(r) < 0x100
  {
    NumberBound(r);
    assert Pow2(8) == 16 * Pow2(4);
  }

  /** Exclusive or of two bytes. */
  function ByteXor(x: byte, e: byte): byte {
    ByteNumber(Xor(BitsOf(x, 8), BitsOf(e, 8)));
    Number(Xor(BitsOf(x, 8), BitsOf(e, 8)))
  }

  lemma {:induction false} ByteXorBits(x: byte, e: byte)
    ensures BitsOf(ByteXor(x, e), 8) == Xor(BitsOf(x, 8), BitsOf(e, 8))
    ensures ByteXor(x, ByteXor(x, e)) == e
  {
    hide BitsOf, Number;
    var a, b := BitsOf(x, 8), BitsOf(e, 8);
    BitsOfNumber(Xor(a, b));
    assert Xor(a, Xor(a, b)) == b;
    BitsOfNumber(Xor(a, BitsOf(ByteXor(x, e), 8)));
    ByteBitsInjective(ByteXor(x, ByteXor(x, e)), e);
  }

  lemma {:induction false} XorChanges(x: byte, e: byte)
    requires e != 0
    ensures ByteXor(x, e) != x
  {
    hide BitsOf, Number;
    ByteXorBits(x, e);
    if ByteXor(x, e) == x {
      BlindBits();
      forall i | 0 <= i < 8
        ensures BitsOf(e, 8)[i] == Zeros(8)[i]
      {
        assert BitsOf(x, 8)[i] == Xor(BitsOf(x, 8), BitsOf(e, 8))[i];
      }
      ByteBitsInjective(e, 0);
    }
  }

  /** Four steps of the division at once. */
  predicate FourOn(r: Register, i: nat)
    requires i < 16
  {
    (i < 12 && r[i + 4]) != ((i < 4 && r[i]) || (7 <= i < 11 && r[i - 7]) || (12 <= i && r[i - 12]))
  }

  lemma {:induction false} ShiftBitOn(r: Register, i: nat)
    requires i < 16
    ensures ShiftBit(r)[i] == ((i < 15 && r[i + 1]) != (r[0] && (i == 3 || i == 10 || i == 15)))
  {
  }

  lemma {:induction false} FourSteps(r: Register)
    ensures forall i :: 0 <= i < 16 ==> ShiftBits(r, 4)[i] == FourOn(r, i)
  {
    hide ShiftBit;
    var r1 := ShiftBit(r);
    var r2 := ShiftBit(r1);
    var r3 := ShiftBit(r2);
    var r4 := ShiftBit(r3);
    assert ShiftBits(r, 4) == ShiftBits(r1, 3) == ShiftBits(r2, 2) == ShiftBits(r3, 1) == ShiftBits(r4, 0) == r4;
    forall i | 0 <= i < 16
      ensures r4[i] == FourOn(r, i)
    {
      FourStepsOn(r, r1, r2, r3, r4, i);
    }
  }

  lemma {:induction false} FourStepsOn(r: Register, r1: Register, r2: Register, r3: Register, r4: Register, i: nat)
    requires i < 16
    requires r1 == ShiftBit(r) && r2 == ShiftBit(r1) && r3 == ShiftBit(r2) && r4 == ShiftBit(r3)
    ensures r4[i] == FourOn(r, i)
  {
    hide ShiftBit;
    ShiftBitOn(r3, i);
    ShiftBitOn(r2, 0);
    ShiftBitOn(r1, 0);
    ShiftBitOn(r1, 1);
    ShiftBitOn(r, 0);
    ShiftBitOn(r, 1);
    ShiftBitOn(r, 2);
    if i + 1 < 16 {
      ShiftBitOn(r2, i + 1);
      if i + 2 < 16 {
        ShiftBitOn(r1, i + 2);
        if i + 3 < 16 {
          ShiftBitOn(r, i + 3);
        }
      }
    }
  }

  lemma {:induction false} ShiftBitsAdd(r: Register, a: nat, b: nat)
    ensures ShiftBits(r, a + b) == ShiftBits(ShiftBits(r, a), b)
    decreases a
  {
    if a != 0 {
      ShiftBitsAdd(ShiftBit(r), a - 1, b);
    }
  }

  /** The one change of a last byte whose effect on the register stays within its lower half. */
  const BLIND_LAST: byte := 0x89
  const BLIND_SEAL: byte := 0xA1

  const BLIND_LAST_BITS: Bits := [true, false, false, false, true, false, false, true]
  const BLIND_SEAL_BITS: Bits := [true, false, true, false, false, false, false, true]

  lemma {:induction false} ByteOfBits(v: byte, r: Bits)
    requires |r| == 8
    requires Bit(v, 7) == r[0] && Bit(v, 6) == r[1] && Bit(v, 5) == r[2] && Bit(v, 4) == r[3]
    requires Bit(v, 3) == r[4] && Bit(v, 2) == r[5] && Bit(v, 1) == r[6] && Bit(v, 0) == r[7]
    ensures BitsOf(v, 8) == r
  {
    hide Bit;
  }

  lemma {:induction false} BlindBits()
    ensures BitsOf(BLIND_LAST, 8) == BLIND_LAST_BITS
    ensures BitsOf(BLIND_SEAL, 8) == BLIND_SEAL_BITS
    ensures BitsOf(0, 8) == Zeros(8)
  {
    ByteOfBits(BLIND_LAST, BLIND_LAST_BITS);
    ByteOfBits(BLIND_SEAL, BLIND_SEAL_BITS);
    ByteOfBits(0, Zeros(8));
  }

  /** The register after four steps, in terms of the bits before them. */
  lemma {:induction false} FourBits(r: Register, h: Register)
    requires h == ShiftBits(r, 4)
    ensures h[0] == (r[4] != r[0]) && h[1] == (r[5] != r[1]) && h[2] == (r[6] != r[2]) && h[3] == (r[7] != r[3])
    ensures h[4] == r[8] && h[5] == r[9] && h[6] == r[10] && h[7] == (r[11] != r[0])
    ensures h[8] == (r[12] != r[1]) && h[9] == (r[13] != r[2]) && h[10] == (r[14] != r[3]) && h[11] == r[15]
    ensures h[12] == r[0] && h[13] == r[1] && h[14] == r[2] && h[15] == r[3]
  {
    hide ShiftBits;
    FourSteps(r);
  }

  lemma {:induction false} LowerHalfOnly(e: Bits, f: Bits)
    requires |e| == |f| == 8
    ensures ShiftBits(e + Zeros(8), 8) == Zeros(8) + f <==>
            (e == Zeros(8) && f == Zeros(8)) || (e == BLIND_LAST_BITS && f == BLIND_SEAL_BITS)
  {
    hide ShiftBits;
    var r: Register := e + Zeros(8);
    var half, want := ShiftBits(r, 4), Zeros(8) + f;
    var d := ShiftBits(half, 4);
    ShiftBitsAdd(r, 4, 4);
    FourBits(r, half);
    FourBits(half, d);
    SameBits(d, want);
  }

  lemma {:induction false} SameBits(a: Register, b: Register)
    ensures a == b <==>
            && a[0] == b[0] && a[1] == b[1] && a[2] == b[2] && a[3] == b[3]
            && a[4] == b[4] && a[5] == b[5] && a[6] == b[6] && a[7] == b[7]
            && a[8] == b[8] && a[9] == b[9] && a[10] == b[10] && a[11] == b[11]
            && a[12] == b[12] && a[13] == b[13] && a[14] == b[14] && a[15] == b[15]
  {
  }

  lemma {:induction false} UnseenChange(e: byte, f: byte)
    ensures ShiftBits(BitsOf(e, 8) + Zeros(8), 8) == Zeros(8) + BitsOf(f, 8) <==>
            (e == 0 && f == 0) || (e == BLIND_LAST && f == BLIND_SEAL)
  {
    hide BitsOf, ShiftBits;
    BlindBits();
    LowerHalfOnly(BitsOf(e, 8), BitsOf(f, 8));
    if BitsOf(e, 8) == Zeros(8) && BitsOf(f, 8) == Zeros(8) {
      ByteBitsInjective(e, 0);
      ByteBitsInjective(f, 0);
    }
    if BitsOf(e, 8) == BitsOf(BLIND_LAST, 8) && BitsOf(f, 8) == BitsOf(BLIND_SEAL, 8) {
      ByteBitsInjective(e, BLIND_LAST);
      ByteBitsInjective(f, BLIND_SEAL);
    }
  }

  /** Changing the last byte changes the register by the division of the change alone. */
  lemma {:induction false} LastByteChanged(data: seq<byte>, x: byte, e: byte)
    ensures FeedAll(INITIAL, data + [ByteXor(x, e)]) ==
            Xor(FeedAll(INITIAL, data + [x]), ShiftBits(BitsOf(e, 8) + Zeros(8), 8))
  {
    hide BitsOf, ShiftBits;
    var r := FeedAll(INITIAL, data);
    var y := ByteXor(x, e);
    FeedAllAppend(INITIAL, data, [x]);
    FeedAllAppend(INITIAL, data, [y]);
    assert FeedAll(r, [x]) == Feed(r, x) && FeedAll(r, [y]) == Feed(r, y);
    ByteXorBits(x, e);
    var a, b := BitsOf(x, 8) + Zeros(8), BitsOf(e, 8) + Zeros(8);
    assert Xor(r, BitsOf(y, 8) + Zeros(8)) == Xor(Xor(r, a), b);
    ShiftBitsLinear(Xor(r, a), b, 8);
  }

  // ---- What no checksum of sixteen bits can detect ------------------------------------------

  /** Changing a word changes the register by the division of the change alone. */
  lemma {:induction false} WordChanged(r: Register, w: Register, change: Register)
    ensures ShiftBits(ShiftBits(Xor(r, Xor(w, change)), 8), 8) ==
            Xor(ShiftBits(ShiftBits(Xor(r, w), 8), 8), ShiftBits(ShiftBits(change, 8), 8))
  {
    hide ShiftBits;
    assert Xor(r, Xor(w, change)) == Xor(Xor(r, w), change);
    ShiftBitsLinear(Xor(r, w), change, 8);
    ShiftBitsLinear(ShiftBits(Xor(r, w), 8), ShiftBits(change, 8), 8);
  }

  lemma {:induction false} WordXor(x: byte, y: byte, e: byte, f: byte)
    ensures BitsOf(ByteXor(x, e), 8) + BitsOf(ByteXor(y, f), 8) ==
            Xor(BitsOf(x, 8) + BitsOf(y, 8), BitsOf(e, 8) + BitsOf(f, 8))
  {
    hide BitsOf, ByteXor;
    ByteXorBits(x, e);
    ByteXorBits(y, f);
  }

  /** A change of one word can be undone by a change of the next. */
  lemma {:induction false} UndoneByNextWord(r: Register, a: byte, b: byte, c: byte, d: byte, e: byte, f: byte)
    returns (g: byte, h: byte)
    ensures Feed(Feed(Feed(Feed(r, ByteXor(a, e)), ByteXor(b, f)), ByteXor(c, g)), ByteXor(d, h)) ==
            Feed(Feed(Feed(Feed(r, a), b), c), d)
  {
    hide BitsOf, ShiftBits, ByteXor, Number, Feed;
    var first, change: Register := BitsOf(a, 8) + BitsOf(b, 8), BitsOf(e, 8) + BitsOf(f, 8);
    var second: Register := BitsOf(c, 8) + BitsOf(d, 8);
    var left := ShiftBits(ShiftBits(change, 8), 8);
    ByteNumber(left[..8]);
    ByteNumber(left[8..]);
    BitsOfNumber(left[..8]);
    BitsOfNumber(left[8..]);
    g, h := Number(left[..8]), Number(left[8..]);
    assert BitsOf(g, 8) + BitsOf(h, 8) == left;
    FeedTwo(r, a, b);
    FeedTwo(r, ByteXor(a, e), ByteXor(b, f));
    WordXor(a, b, e, f);
    WordXor(c, d, g, h);
    WordChanged(r, first, change);
    var s := Feed(Feed(r, a), b);
    FeedTwo(s, c, d);
    FeedTwo(Xor(s, left), ByteXor(c, g), ByteXor(d, h));
    assert Xor(Xor(s, left), Xor(second, left)) == Xor(s, second);
  }

  /** Every record of at least four bytes has another of its length with the same checksum. */
  lemma {:induction false} EveryRecordCollides(data: seq<byte>) returns (other: seq<byte>)
    requires |data| >= 4
    ensures |other| == |data| && other != data && Crc16(other) == Crc16(data)
  {
    hide Feed, ByteXor, Number;
    var g, h := UndoneByNextWord(INITIAL, data[0], data[1], data[2], data[3], 0, 1);
    var b := [ByteXor(data[0], 0), ByteXor(data[1], 1), ByteXor(data[2], g), ByteXor(data[3], h)];
    other := b + data[4..];
    XorChanges(data[1], 1);
    assert data == data[..4] + data[4..] && data[..4] == [data[0], data[1], data[2], data[3]];
    FeedAllAppend(INITIAL, b, data[4..]);
    FeedAllAppend(INITIAL, data[..4], data[4..]);
    FeedFour(INITIAL, b);
    FeedFour(INITIAL, data[..4]);
    assert other[1] == b[1];
  }

  lemma {:induction false} FeedFour(r: Register, d: seq<byte>)
    requires |d| == 4
    ensures FeedAll(r, d) == Feed(Feed(Feed(Feed(r, d[0]), d[1]), d[2]), d[3])
  {
    hide Feed;
    assert d == d[..2] + d[2..] && d[..2] == d[0..2] && d[2..] == d[2..4];
    FeedAllAppend(r, d[..2], d[2..]);
    FeedPair(r, d, 0);
    FeedPair(FeedAll(r, d[..2]), d, 2);
  }
}

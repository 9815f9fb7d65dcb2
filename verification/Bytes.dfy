/** Machine integers and their little-endian byte images, as the bridge's processor lays them out. */
module Bytes {

  type byte = x: int | 0 <= x < 0x100
  type u16 = x: int | 0 <= x < 0x1_0000
  type u32 = x: int | 0 <= x < 0x1_0000_0000
  type i32 = x: int | -0x8000_0000 <= x < 0x8000_0000

  datatype Option<+T> = None | Some(value: T)

  /** The `n` low bytes of `x`, least significant first. */
  function Le(x: nat, n: nat): (b: seq<byte>)
    ensures |b| == n
    decreases n, x
  {
    if n == 0 then [] else [x % 0x100] + Le(x / 0x100, n - 1)
  }

  function FromLe(b: seq<byte>): nat {
    if b == [] then 0 else b[0] as int + 0x100 * FromLe(b[1..])
  }

  function Range(n: nat): nat {
    if n == 0 then 1 else 0x100 * Range(n - 1)
  }

  lemma {:induction false} FromLeBound(b: seq<byte>)
    ensures FromLe(b) < Range(|b|)
  {
    if b != [] {
      FromLeBound(b[1..]);
    }
  }

  lemma {:induction false} LeRoundTrip(x: nat, n: nat)
    requires x < Range(n)
    ensures FromLe(Le(x, n)) == x
    decreases n
  {
    if n != 0 {
      LeRoundTrip(x / 0x100, n - 1);
      assert Le(x, n)[1..] == Le(x / 0x100, n - 1);
    }
  }

  /** Decoding loses nothing either: two byte images of one value are the same bytes. */
  lemma {:induction false} FromLeInjective(a: seq<byte>, b: seq<byte>)
    requires |a| == |b| && FromLe(a) == FromLe(b)
    ensures a == b
  {
    if a != [] {
      FromLeInjective(a[1..], b[1..]);
      assert a == [a[0]] + a[1..] && b == [b[0]] + b[1..];
    }
  }

  lemma {:induction false} Ranges()
    ensures Range(2) == 0x1_0000 && Range(4) == 0x1_0000_0000
  {
    assert Range(4) == 0x1_0000 * Range(2);
  }

  function Le16(x: u16): seq<byte> {
    Le(x, 2)
  }

  function FromLe16(b: seq<byte>): u16
    requires |b| == 2
  {
    Ranges();
    FromLeBound(b);
    FromLe(b)
  }

  function Le32(x: u32): seq<byte> {
    Le(x, 4)
  }

  function FromLe32(b: seq<byte>): u32
    requires |b| == 4
  {
    Ranges();
    FromLeBound(b);
    FromLe(b)
  }

  /** Two and four bytes, written out: the least significant first. */
  lemma {:induction false} LittleEndian(x: u16, y: u32)
    ensures Le16(x) == [x % 0x100, x / 0x100]
    ensures Le32(y) == [y % 0x100, y / 0x100 % 0x100, y / 0x1_0000 % 0x100, y / 0x100_0000]
  {
    assert Le(x / 0x100, 1) == [x / 0x100] + Le(x / 0x1_0000, 0);
    assert Le(y / 0x100_0000, 1) == [y / 0x100_0000] + Le(y / 0x1_0000_0000, 0);
    assert Le(y / 0x1_0000, 2) == [y / 0x1_0000 % 0x100] + Le(y / 0x100_0000, 1);
    assert Le(y / 0x100, 3) == [y / 0x100 % 0x100] + Le(y / 0x1_0000, 2);
  }

  /** Two's complement, the image `reinterpret_cast` exposes. */
  function Unsigned(x: i32): u32 {
    if x < 0 then x as int + 0x1_0000_0000 else x as int
  }

  function Signed(x: u32): i32 {
    if x < 0x8000_0000 then x as int else x as int - 0x1_0000_0000
  }

  lemma {:induction false} Le16RoundTrip(x: u16)
    ensures FromLe16(Le16(x)) == x
  {
    Ranges();
    LeRoundTrip(x, 2);
  }

  lemma {:induction false} Le32RoundTrip(x: u32)
    ensures FromLe32(Le32(x)) == x
  {
    Ranges();
    LeRoundTrip(x, 4);
  }

  /** A waveform as it lies in memory: four bytes for each signed duration. */
  function TimingBytes(timings: seq<i32>): (b: seq<byte>)
    ensures |b| == 4 * |timings|
  {
    if timings == [] then [] else Le32(Unsigned(timings[0])) + TimingBytes(timings[1..])
  }

  function TimingsOf(b: seq<byte>): (timings: seq<i32>)
    requires |b| % 4 == 0
    ensures |b| == 4 * |timings|
  {
    if b == [] then [] else [Signed(FromLe32(b[..4]))] + TimingsOf(b[4..])
  }

  /** Each duration lies at four times its place, as the 32-bit pattern of its sign and size. */
  lemma {:induction false} TimingAt(timings: seq<i32>, k: nat)
    requires k < |timings|
    ensures TimingBytes(timings)[4 * k..4 * k + 4] == Le32(timings[k] as int % 0x1_0000_0000)
  {
    hide Le;
    if k != 0 {
      TimingAt(timings[1..], k - 1);
    }
  }

  lemma {:induction false} TimingsRoundTrip(timings: seq<i32>)
    ensures TimingsOf(TimingBytes(timings)) == timings
  {
    if timings != [] {
      var head, rest := Le32(Unsigned(timings[0])), TimingBytes(timings[1..]);
      assert (head + rest)[..4] == head && (head + rest)[4..] == rest;
      Le32RoundTrip(Unsigned(timings[0]));
      TimingsRoundTrip(timings[1..]);
    }
  }

  lemma {:induction false} TimingBytesInjective(a: seq<i32>, b: seq<i32>)
    requires TimingBytes(a) == TimingBytes(b)
    ensures a == b
  {
    TimingsRoundTrip(a);
    TimingsRoundTrip(b);
  }
}

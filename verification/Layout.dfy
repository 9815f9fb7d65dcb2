/**
 * The stored records, byte for byte: a fixed header, an index with one row per slot, and one
 * waveform record per occupied slot. Each index and header ends in its checksum.
 */
module Layout {
  import opened Bytes
  import opened Checksum
  import opened RegistryModel

  const STORE_MAGIC: u16 := 0x5246
  const STORE_FORMAT_VERSION: byte := 1
  const NAME_BUF_LEN: nat := 24

  function ZeroBytes(n: nat): seq<byte> {
    seq(n, _ => 0)
  }

  // ---- Names --------------------------------------------------------------------------------

  /** A C string ends at its first zero. */
  function CString(b: seq<byte>): (s: seq<byte>)
    ensures |s| <= |b| && s == b[..|s|]
    ensures forall i :: 0 <= i < |s| ==> s[i] != 0
    ensures |s| == |b| || b[|s|] == 0
  {
    if b == [] || b[0] == 0 then [] else [b[0]] + CString(b[1..])
  }

  /** The 24-byte name buffer: at most 23 characters, padded with zeros. */
  function NameField(name: Name): (f: seq<byte>)
    ensures |f| == NAME_BUF_LEN
  {
    var s := CString(name);
    var kept := if |s| > NAME_MAX_CHARS then s[..NAME_MAX_CHARS] else s;
    kept + ZeroBytes(NAME_BUF_LEN - |kept|)
  }

  function NameOf(field: seq<byte>): Name
    requires |field| == NAME_BUF_LEN
  {
    CString(field[..NAME_MAX_CHARS])
  }

  lemma {:induction false} CStringIs(b: seq<byte>, s: seq<byte>)
    requires |s| <= |b| && s == b[..|s|]
    requires forall i :: 0 <= i < |s| ==> s[i] != 0
    requires |s| == |b| || b[|s|] == 0
    ensures CString(b) == s
  {
    if s != [] {
      CStringIs(b[1..], s[1..]);
      assert s == [b[0]] + s[1..];
    }
  }

  lemma {:induction false} ValidNameHasNoZero(name: Name)
    requires ValidateName(name) == Ok
    ensures forall i :: 0 <= i < |name| ==> name[i] != 0
  {
    assert forall i :: 0 <= i < |name| ==> AllowedByte(name[i]);
  }

  lemma {:induction false} NameRoundTrip(name: Name)
    requires ValidateName(name) == Ok
    ensures NameOf(NameField(name)) == name
  {
    ValidNameHasNoZero(name);
    CStringIs(name, name);
    CStringIs(NameField(name)[..NAME_MAX_CHARS], name);
  }

  // ---- Index rows ---------------------------------------------------------------------------

  function TimingsCrc(timings: seq<i32>): u16 {
    if timings == [] then 0 else Crc16(TimingBytes(timings))
  }

  datatype Row = Row(name: Name, id: u32, pulses: u16, repeatTimes: u16, gapUs: u32, frequencyHz: u32,
                     modulation: byte, payloadCrc: u16)
  {
    /** A row with no id, no name or no pulses is a free slot. */
    predicate Vacant() { id == COMMAND_ID_NONE || name == [] || pulses == 0 }
  }

  function JoinRow(name: seq<byte>, id: seq<byte>, pulses: seq<byte>, repeats: seq<byte>, gap: seq<byte>,
                   frequency: seq<byte>, modulationAndFlags: seq<byte>, crc: seq<byte>): seq<byte>
  {
    name + id + pulses + repeats + gap + frequency + modulationAndFlags + crc
  }

  function EncodeRow(r: Row): (b: seq<byte>)
    ensures |b| == SLOT_BYTES
  {
    JoinRow(NameField(r.name), Le32(r.id), Le16(r.pulses), Le16(r.repeatTimes), Le32(r.gapUs),
            Le32(r.frequencyHz), [r.modulation, 0], Le16(r.payloadCrc))
  }

  function ParseRow(b: seq<byte>): Row
    requires |b| == SLOT_BYTES
  {
    Row(NameOf(b[..24]), FromLe32(b[24..28]), FromLe16(b[28..30]), FromLe16(b[30..32]), FromLe32(b[32..36]),
        FromLe32(b[36..40]), b[40], FromLe16(b[42..44]))
  }

  function RowFor(c: Command): Row {
    Row(c.name, c.id, |c.timings| % 0x1_0000, c.repeatTimes, c.gapUs, c.frequencyHz, c.modulation,
        TimingsCrc(c.timings))
  }

  function RowBytes(c: Command): (b: seq<byte>)
    ensures |b| == SLOT_BYTES
  {
    if c.Occupied() then EncodeRow(RowFor(c)) else ZeroBytes(SLOT_BYTES)
  }

  lemma {:induction false} RowPieces(n: seq<byte>, i: seq<byte>, p: seq<byte>, r: seq<byte>, g: seq<byte>, f: seq<byte>,
                  m: seq<byte>, c: seq<byte>)
    requires |n| == 24 && |i| == 4 && |p| == 2 && |r| == 2 && |g| == 4 && |f| == 4 && |m| == 2 && |c| == 2
    ensures ParseRow(JoinRow(n, i, p, r, g, f, m, c)) ==
            Row(NameOf(n), FromLe32(i), FromLe16(p), FromLe16(r), FromLe32(g), FromLe32(f), m[0], FromLe16(c))
  {
    var b := JoinRow(n, i, p, r, g, f, m, c);
    assert && b[..24] == n && b[24..28] == i && b[28..30] == p && b[30..32] == r && b[32..36] == g
           && b[36..40] == f && b[40] == m[0] && b[42..44] == c;
  }

  lemma {:induction false} NumbersRoundTrip(r: Row)
    ensures FromLe32(Le32(r.id)) == r.id && FromLe16(Le16(r.pulses)) == r.pulses
    ensures FromLe16(Le16(r.repeatTimes)) == r.repeatTimes && FromLe32(Le32(r.gapUs)) == r.gapUs
    ensures FromLe32(Le32(r.frequencyHz)) == r.frequencyHz && FromLe16(Le16(r.payloadCrc)) == r.payloadCrc
  {
    Le32RoundTrip(r.id);
    Le16RoundTrip(r.pulses);
    Le16RoundTrip(r.repeatTimes);
    Le32RoundTrip(r.gapUs);
    Le32RoundTrip(r.frequencyHz);
    Le16RoundTrip(r.payloadCrc);
  }

  lemma {:induction false} RowRoundTrip(r: Row)
    requires ValidateName(r.name) == Ok
    ensures ParseRow(EncodeRow(r)) == r
  {
    RowPieces(NameField(r.name), Le32(r.id), Le16(r.pulses), Le16(r.repeatTimes), Le32(r.gapUs),
              Le32(r.frequencyHz), [r.modulation, 0], Le16(r.payloadCrc));
    NameRoundTrip(r.name);
    NumbersRoundTrip(r);
  }

  /** The row a slot leaves on flash. */
  predicate RowMatches(r: Row, c: Command) {
    if c.Occupied() then r == RowFor(c) else r.Vacant()
  }

  predicate Storable(c: Command) {
    if c.Occupied() then ValidateName(c.name) == Ok && |c.timings| < 0x1_0000 else c == FREE
  }

  lemma {:induction false} ZerosAreVacant()
    ensures ParseRow(ZeroBytes(SLOT_BYTES)).Vacant()
  {
    assert ZeroBytes(SLOT_BYTES)[24..28] == [0, 0, 0, 0];
    assert FromLe32([0, 0, 0, 0]) == 0;
  }

  lemma {:induction false} SlotRoundTrip(c: Command)
    requires Storable(c)
    ensures RowMatches(ParseRow(RowBytes(c)), c)
  {
    if c.Occupied() {
      RowRoundTrip(RowFor(c));
    } else {
      ZerosAreVacant();
    }
  }

  // ---- The index ----------------------------------------------------------------------------

  function MetaBytes(reg: Registry): (b: seq<byte>)
    ensures |b| == META_BYTES
  {
    reg.bridgeId + Le32(reg.nextId) + Le32(reg.revision) + [reg.restoreState, 0, 0, 0]
  }

  function RowsUpTo(slots: seq<Command>, n: nat): (b: seq<byte>)
    requires n <= |slots|
    ensures |b| == n * SLOT_BYTES
  {
    if n == 0 then [] else RowsUpTo(slots, n - 1) + RowBytes(slots[n - 1])
  }

  function IndexBody(reg: Registry): (b: seq<byte>)
    ensures |b| == META_BYTES + |reg.slots| * SLOT_BYTES
  {
    MetaBytes(reg) + RowsUpTo(reg.slots, |reg.slots|)
  }

  /** A record body followed by its little-endian checksum. */
  function Sealed(body: seq<byte>): (b: seq<byte>)
    ensures |b| == |body| + CRC_BYTES
  {
    body + Le16(Crc16(body))
  }

  predicate SealIntact(b: seq<byte>)
    requires |b| >= CRC_BYTES
  {
    FromLe16(b[|b| - CRC_BYTES..]) == Crc16(b[..|b| - CRC_BYTES])
  }

  function IndexBytes(reg: Registry): (b: seq<byte>)
    ensures |b| == IndexBytesFor(|reg.slots|)
  {
    Sealed(IndexBody(reg))
  }

  function RowAt(raw: seq<byte>, i: nat): Row
    requires IndexBytesFor(i + 1) <= |raw|
  {
    var at := META_BYTES + i * SLOT_BYTES;
    ParseRow(raw[at..at + SLOT_BYTES])
  }

  lemma {:induction false} SealedIsIntact(body: seq<byte>)
    ensures SealIntact(Sealed(body))
  {
    var b := Sealed(body);
    assert b[|b| - CRC_BYTES..] == Le16(Crc16(body)) && b[..|b| - CRC_BYTES] == body;
    Le16RoundTrip(Crc16(body));
  }

  lemma {:induction false} MetaRoundTrip(reg: Registry)
    ensures var raw := IndexBytes(reg);
            && raw[..16] == reg.bridgeId && FromLe32(raw[16..20]) == reg.nextId
            && FromLe32(raw[20..24]) == reg.revision && raw[24] == reg.restoreState
  {
    hide Crc16, RowsUpTo, Le16;
    var raw := IndexBytes(reg);
    assert raw[..META_BYTES] == MetaBytes(reg);
    assert raw[..16] == reg.bridgeId;
    assert raw[16..20] == Le32(reg.nextId) && raw[20..24] == Le32(reg.revision);
    Le32RoundTrip(reg.nextId);
    Le32RoundTrip(reg.revision);
  }

  lemma {:induction false} RowsSlice(slots: seq<Command>, n: nat, i: nat)
    requires i < n <= |slots|
    ensures RowsUpTo(slots, n)[i * SLOT_BYTES..i * SLOT_BYTES + SLOT_BYTES] == RowBytes(slots[i])
  {
    if i < n - 1 {
      RowsSlice(slots, n - 1, i);
      assert RowsUpTo(slots, n)[..(n - 1) * SLOT_BYTES] == RowsUpTo(slots, n - 1);
    }
  }

  lemma {:induction false} IndexSlice(reg: Registry, i: nat)
    requires i < |reg.slots|
    ensures var at := META_BYTES + i * SLOT_BYTES;
            IndexBytes(reg)[at..at + SLOT_BYTES] == RowBytes(reg.slots[i])
  {
    RowsSlice(reg.slots, |reg.slots|, i);
    SliceWithin(MetaBytes(reg), RowsUpTo(reg.slots, |reg.slots|), Le16(Crc16(IndexBody(reg))), i * SLOT_BYTES,
                SLOT_BYTES);
  }

  lemma {:induction false} SliceWithin(a: seq<byte>, b: seq<byte>, c: seq<byte>, at: nat, n: nat)
    requires at + n <= |b|
    ensures (a + b + c)[|a| + at..|a| + at + n] == b[at..at + n]
  {
  }

  lemma {:induction false} IndexRow(reg: Registry, i: nat)
    requires i < |reg.slots|
    ensures RowAt(IndexBytes(reg), i) == ParseRow(RowBytes(reg.slots[i]))
  {
    IndexSlice(reg, i);
  }

  /** The stored rows, one for each slot the header announces. */
  function Rows(raw: seq<byte>, n: nat): (rows: seq<Row>)
    requires IndexBytesFor(n) <= |raw|
    ensures |rows| == n && forall i :: 0 <= i < n ==> rows[i] == RowAt(raw, i)
  {
    seq(n, i requires 0 <= i < n => RowAt(raw, i))
  }

  lemma {:induction false} RowsRoundTrip(reg: Registry)
    requires forall i :: 0 <= i < |reg.slots| ==> Storable(reg.slots[i])
    ensures forall i :: 0 <= i < |reg.slots| ==>
              RowMatches(Rows(IndexBytes(reg), |reg.slots|)[i], reg.slots[i])
  {
    forall i | 0 <= i < |reg.slots|
      ensures RowMatches(RowAt(IndexBytes(reg), i), reg.slots[i])
    {
      IndexRow(reg, i);
      SlotRoundTrip(reg.slots[i]);
    }
  }

  // ---- The header ---------------------------------------------------------------------------

  function HeaderBody(slotCount: byte): (b: seq<byte>)
    ensures |b| == 8
  {
    Le16(STORE_MAGIC) + [STORE_FORMAT_VERSION, slotCount] + Le16(IndexBytesFor(slotCount)) + Le16(0)
  }

  function HeaderBytes(slotCount: byte): (b: seq<byte>)
    ensures |b| == HEADER_BYTES
  {
    Sealed(HeaderBody(slotCount))
  }

  datatype Header = Header(magic: u16, version: byte, slotCount: byte, indexBytes: u16)

  function ParseHeader(b: seq<byte>): Header
    requires |b| == HEADER_BYTES
  {
    Header(FromLe16(b[..2]), b[2], b[3], FromLe16(b[4..6]))
  }

  lemma {:induction false} HeaderRoundTrip(slotCount: byte)
    ensures ParseHeader(HeaderBytes(slotCount)) ==
            Header(STORE_MAGIC, STORE_FORMAT_VERSION, slotCount, IndexBytesFor(slotCount))
  {
    var b := HeaderBytes(slotCount);
    assert b[..2] == Le16(STORE_MAGIC) && b[4..6] == Le16(IndexBytesFor(slotCount));
    Le16RoundTrip(STORE_MAGIC);
    Le16RoundTrip(IndexBytesFor(slotCount));
  }

  // ---- Damage to a sealed record ------------------------------------------------------------

  /** The record with its last body byte changed by `e` and the first byte of its checksum by `f`. */
  function Straddled(body: seq<byte>, e: byte, f: byte): (damaged: seq<byte>)
    requires body != []
    ensures |damaged| == |body| + CRC_BYTES
  {
    var record, n := Sealed(body), |body|;
    record[n - 1 := ByteXor(record[n - 1], e)][n := ByteXor(record[n], f)]
  }

  /** The one damage to two adjacent bytes that no checksum sees, in any record. */
  function BlindSpot(body: seq<byte>): (damaged: seq<byte>)
    requires body != []
    ensures |damaged| == |body| + CRC_BYTES
  {
    Straddled(body, BLIND_LAST, BLIND_SEAL)
  }

  /** Two checksum bytes spell a register exactly when they are its two halves, low byte first. */
  lemma {:induction false} SealSpells(r: Register, lo: byte, hi: byte)
    ensures FromLe16([lo, hi]) == Number16(r) <==> BitsOf(lo, 8) == r[8..] && BitsOf(hi, 8) == r[..8]
  {
    hide BitsOf, Number, FromLe;
    var low, high := r[8..], r[..8];
    assert r == high + low;
    NumberHalves(high, low);
    ByteNumber(low);
    ByteNumber(high);
    BitsOfNumber(low);
    BitsOfNumber(high);
    FromLePair(lo, hi);
    if BitsOf(lo, 8) == low && BitsOf(hi, 8) == high {
      ByteBitsInjective(lo, Number(low));
      ByteBitsInjective(hi, Number(high));
    }
  }

  lemma {:induction false} FromLePair(lo: byte, hi: byte)
    ensures FromLe16([lo, hi]) == lo + 0x100 * hi
  {
    assert [lo, hi][1..] == [hi] && [hi][1..] == [];
    assert FromLe([hi]) == hi + 0x100 * FromLe([]);
  }

  lemma {:induction false} SealBytes(body: seq<byte>)
    ensures var r, seal := FeedAll(INITIAL, body), Le16(Crc16(body));
            |seal| == 2 && BitsOf(seal[0], 8) == r[8..] && BitsOf(seal[1], 8) == r[..8]
  {
    hide BitsOf, Number16, FeedAll;
    var seal := Le16(Crc16(body));
    assert |seal| == 2 && seal == [seal[0], seal[1]];
    Le16RoundTrip(Crc16(body));
    SealSpells(FeedAll(INITIAL, body), seal[0], seal[1]);
  }

  /** Across the seam between body and checksum, exactly one change goes unseen. */
  lemma {:induction false} SeamSeesAllButOne(body: seq<byte>, e: byte, f: byte)
    requires body != []
    ensures SealIntact(Straddled(body, e, f)) <==> (e == 0 && f == 0) || (e == BLIND_LAST && f == BLIND_SEAL)
  {
    hide BitsOf, Number16, FeedAll, ByteXor, Le16, FromLe16, ShiftBits;
    var n, damaged := |body|, Straddled(body, e, f);
    var front, x := body[..n - 1], body[n - 1];
    var r, change := FeedAll(INITIAL, body), ShiftBits(BitsOf(e, 8) + Zeros(8), 8);
    SealBytes(body);
    var seal := Le16(Crc16(body));
    assert body == front + [x];
    assert damaged[..n] == front + [ByteXor(x, e)];
    assert damaged[n..] == [ByteXor(seal[0], f), seal[1]];
    LastByteChanged(front, x, e);
    SealSpells(Xor(r, change), ByteXor(seal[0], f), seal[1]);
    ByteXorBits(seal[0], f);
    HalvesAgree(r, change, BitsOf(f, 8));
    UnseenChange(e, f);
  }

  lemma {:induction false} HalvesAgree(r: Register, change: Register, f: Bits)
    requires |f| == 8
    ensures Xor(r[8..], f) == Xor(r, change)[8..] && r[..8] == Xor(r, change)[..8] <==> change == Zeros(8) + f
  {
    var x := Xor(r, change);
    if Xor(r[8..], f) == x[8..] && r[..8] == x[..8] {
      forall i | 0 <= i < 16
        ensures change[i] == (Zeros(8) + f)[i]
      {
        if i < 8 {
          assert r[..8][i] == x[..8][i];
        } else {
          assert Xor(r[8..], f)[i - 8] == x[8..][i - 8];
        }
      }
    }
  }

  /**
   * Change one byte, or two adjacent ones, anywhere in a sealed record: the checksum no longer holds,
   * unless the change is the one blind spot.
   */
  lemma {:induction false} SealSeesAllButOne(body: seq<byte>, damaged: seq<byte>)
    requires Burst(Sealed(body), damaged)
    ensures SealIntact(damaged) <==> body != [] && damaged == BlindSpot(body)
  {
    hide Crc16, ByteXor, FromLe16;
    var record, n := Sealed(body), |body|;
    assert record[..n] == body && record[n..] == Le16(Crc16(body));
    Le16RoundTrip(Crc16(body));
    var i: nat :| i < |record| && BurstAt(record, damaged, i);
    if i + 1 < n {
      assert damaged[n..] == record[n..] && BurstAt(body, damaged[..n], i);
      assert damaged == damaged[..n] + damaged[n..] && record == record[..n] + record[n..];
      BurstDetected(body, damaged[..n]);
      BlindTouchesSeal(body, damaged);
    } else if i >= n {
      assert damaged[..n] == body;
      assert damaged == damaged[..n] + damaged[n..];
      if FromLe16(damaged[n..]) == Crc16(body) {
        FromLe16Injective(damaged[n..], record[n..]);
      }
      BlindTouchesBody(body, damaged);
    } else {
      StraddleDamage(body, damaged);
    }
  }

  lemma {:induction false} FromLe16Injective(a: seq<byte>, b: seq<byte>)
    requires |a| == |b| == 2 && FromLe16(a) == FromLe16(b)
    ensures a == b
  {
    FromLeInjective(a, b);
  }

  lemma {:induction false} BlindTouchesSeal(body: seq<byte>, damaged: seq<byte>)
    requires body != [] && |damaged| == |body| + CRC_BYTES && damaged[|body|] == Sealed(body)[|body|]
    ensures damaged != BlindSpot(body)
  {
    hide ByteXor;
    XorChanges(Sealed(body)[|body|], BLIND_SEAL);
  }

  lemma {:induction false} BlindTouchesBody(body: seq<byte>, damaged: seq<byte>)
    requires |damaged| == |body| + CRC_BYTES && damaged[..|body|] == body
    ensures body != [] ==> damaged != BlindSpot(body)
  {
    hide ByteXor;
    if body != [] {
      XorChanges(Sealed(body)[|body| - 1], BLIND_LAST);
      assert damaged[|body| - 1] == damaged[..|body|][|body| - 1];
    }
  }

  lemma {:induction false} StraddleDamage(body: seq<byte>, damaged: seq<byte>)
    requires body != [] && damaged != Sealed(body) && |damaged| == |Sealed(body)|
    requires BurstAt(Sealed(body), damaged, |body| - 1)
    ensures SealIntact(damaged) <==> damaged == BlindSpot(body)
  {
    hide ByteXor, SealIntact;
    var record, n := Sealed(body), |body|;
    var e, f := ByteXor(record[n - 1], damaged[n - 1]), ByteXor(record[n], damaged[n]);
    ByteXorBits(record[n - 1], damaged[n - 1]);
    ByteXorBits(record[n], damaged[n]);
    assert damaged == Straddled(body, e, f);
    SeamSeesAllButOne(body, e, f);
    if e == 0 && f == 0 {
      XorZero(record[n - 1]);
      XorZero(record[n]);
    }
    ByteXorBits(record[n - 1], BLIND_LAST);
    ByteXorBits(record[n], BLIND_SEAL);
  }

  lemma {:induction false} XorZero(x: byte)
    ensures ByteXor(x, 0) == x
  {
    hide BitsOf, Number;
    BlindBits();
    ByteXorBits(x, 0);
    assert Xor(BitsOf(x, 8), Zeros(8)) == BitsOf(x, 8);
    ByteBitsInjective(ByteXor(x, 0), x);
  }
}

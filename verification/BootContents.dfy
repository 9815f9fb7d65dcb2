/**
 * What a boot makes of flash contents of any kind, byte by byte: which headers and indexes it reads, which
 * it refuses and with what fault, and which commands it finds.
 */
module BootContents {
  import opened Bytes
  import opened Checksum
  import opened RegistryModel
  import opened Layout
  import opened Flash
  import opened Recovery

  // ---- The bytes of the records -------------------------------------------------------------

  lemma {:induction false} SealIs(raw: seq<byte>)
    requires |raw| >= CRC_BYTES
    ensures SealIntact(raw) <==> raw == Sealed(raw[..|raw| - CRC_BYTES])
  {
    hide Crc16;
    var n := |raw| - CRC_BYTES;
    assert raw == raw[..n] + raw[n..];
    Le16RoundTrip(Crc16(raw[..n]));
    if SealIntact(raw) {
      FromLeInjective(raw[n..], Le16(Crc16(raw[..n])));
    }
  }

  lemma {:induction false} Le16Is(x: u16, b: seq<byte>)
    requires |b| == 2
    ensures Le16(x) == [x % 0x100, x / 0x100]
    ensures FromLe16(b) == x <==> b == Le16(x)
  {
    LittleEndian(x, 0);
    Le16RoundTrip(x);
    if FromLe16(b) == x {
      FromLeInjective(b, Le16(x));
    }
  }

  /** Ten bytes: "FR", the version, the slot count, the length of the index, two reserved bytes, the checksum. */
  lemma {:induction false} HeaderFormat(slotCount: byte)
    ensures HeaderBytes(slotCount) ==
            Sealed([0x46, 0x52, 1, slotCount] + Le16(28 + 44 * slotCount as int + 2) + [0, 0])
  {
    hide Crc16, Le;
    Le16Is(0x5246, [0, 0]);
    Le16Is(0, [0, 0]);
    assert Le16(0x5246) == [0x46, 0x52] && Le16(0) == [0, 0];
    assert HeaderBody(slotCount) == [0x46, 0x52, 1, slotCount] + Le16(28 + 44 * slotCount as int + 2) + [0, 0];
  }

  /** A row: the name and its padding, then every field at its place, with a zero before the checksum. */
  lemma {:induction false} RowFormat(c: Command)
    requires c.Occupied() && Layout.Storable(c)
    ensures var b := RowBytes(c);
            && b[..|c.name|] == c.name && (forall k :: |c.name| <= k < 24 ==> b[k] == 0)
            && b[24..28] == Le32(c.id) && b[28..30] == Le16(|c.timings|) && b[30..32] == Le16(c.repeatTimes)
            && b[32..36] == Le32(c.gapUs) && b[36..40] == Le32(c.frequencyHz) && b[40] == c.modulation && b[41] == 0
            && b[42..44] == Le16(TimingsCrc(c.timings))
  {
    hide Crc16, TimingsCrc, Le;
    ValidNameHasNoZero(c.name);
    CStringIs(c.name, c.name);
    var r := RowFor(c);
    PlacesInRow(NameField(c.name), Le32(r.id), Le16(r.pulses), Le16(r.repeatTimes), Le32(r.gapUs), Le32(r.frequencyHz),
                [r.modulation, 0], Le16(r.payloadCrc));
    var b := RowBytes(c);
    assert b[..24] == NameField(c.name);
    assert forall k :: 0 <= k < 24 ==> b[k] == b[..24][k];
    assert b[..|c.name|] == b[..24][..|c.name|];
    assert b[40] == b[40..42][0] && b[41] == b[40..42][1];
  }

  lemma {:induction false} PlacesInRow(n: seq<byte>, i: seq<byte>, p: seq<byte>, r: seq<byte>, g: seq<byte>,
                                       f: seq<byte>, m: seq<byte>, c: seq<byte>)
    requires |n| == 24 && |i| == 4 && |p| == 2 && |r| == 2 && |g| == 4 && |f| == 4 && |m| == 2 && |c| == 2
    ensures var b := JoinRow(n, i, p, r, g, f, m, c);
            && |b| == 44 && b[..24] == n && b[24..28] == i && b[28..30] == p && b[30..32] == r && b[32..36] == g
            && b[36..40] == f && b[40..42] == m && b[42..44] == c
  {
  }

  // ---- Headers and indexes ------------------------------------------------------------------

  /** Sealed, with the store's magic and a slot count. */
  predicate Genuine(raw: seq<byte>)
    requires |raw| == 10
  {
    raw[..2] == [0x46, 0x52] && raw[3] != 0 && raw == Sealed(raw[..8])
  }

  /** A header this firmware goes on from: its own version, and the index length its slot count calls for. */
  predicate Followed(raw: seq<byte>)
    requires |raw| == 10
  {
    Genuine(raw) && raw[2] == 1 && raw[4..6] == Le16(28 + 44 * raw[3] as int + 2)
  }

  predicate IndexThere(records: Records, slotCount: byte) {
    IndexKey in records && |records[IndexKey]| == 28 + 44 * slotCount as int + 2 &&
    var index := records[IndexKey];
    index == Sealed(index[..|index| - 2])
  }

  lemma {:induction false} ParsedHeader(raw: seq<byte>)
    requires |raw| == 10
    ensures ParseHeader(raw).magic == STORE_MAGIC <==> raw[..2] == [0x46, 0x52]
    ensures ParseHeader(raw).version == raw[2] && ParseHeader(raw).slotCount == raw[3]
    ensures ParseHeader(raw).indexBytes == IndexBytesFor(raw[3]) <==> raw[4..6] == Le16(28 + 44 * raw[3] as int + 2)
  {
    hide Le, FromLe;
    Le16Is(0x5246, raw[..2]);
    Le16Is(28 + 44 * raw[3] as int + 2, raw[4..6]);
  }

  /**
   * Every header a boot can meet. What is not genuine, or announces an index of another length, is a header
   * fault; a genuine header of another version is a version fault; then the index must be there at its exact
   * length and sealed. Each fault makes the session read-only and leaves RAM as it was; nothing else does
   * before the rows are read.
   */
  lemma {:induction false} HeaderVerdicts(cfg: Config, reg: Registry, records: Records, raw: seq<byte>)
    requires |raw| == 10
    ensures var (report, ram) := ReadBack(cfg, reg, records, raw);
            && (report.versionMismatch <==> Genuine(raw) && raw[2] != 1)
            && (report.headerInvalid <==> !Genuine(raw) || (raw[2] == 1 && !Followed(raw)))
            && (report.headerInvalid ==> ram == Ram(reg, true, HeaderInvalid))
            && (report.versionMismatch ==> ram == Ram(reg, true, VersionUnsupported))
            && (Followed(raw) && !IndexThere(records, raw[3]) ==> ram == Ram(reg, true, IndexInvalid))
            && (Followed(raw) && IndexThere(records, raw[3]) ==>
                  ram.readOnly == (report.payloadFaults > 0) &&
                  ram.fault == if report.payloadFaults > 0 then PayloadInvalid else NoFault)
            && (Followed(raw) && IndexThere(records, raw[3]) ==>
                  (report.slotCountChanged <==> raw[3] != cfg.maxCommands) &&
                  (report.restoreIncomplete <==> ram.reg.restoreState != 0))
            && report.hadStoredData && report.storedVersion == raw[2] && report.storedSlotCount == raw[3]
            && report.readOnly == ram.readOnly && report.fault == ram.fault
  {
    hide Crc16, Rows, Fates, TallyOf, Filled, FirstDamaged, Sealed, ParseHeader, SealIntact, FromLe32, Le;
    ParsedHeader(raw);
    SealIs(raw);
    if IndexKey in records && |records[IndexKey]| >= 2 {
      SealIs(records[IndexKey]);
    }
  }

  // ---- Rows ---------------------------------------------------------------------------------

  /** A row in use: it has an id, a name and pulses. */
  predicate InUse(row: Row) {
    row.id != 0 && row.name != [] && row.pulses != 0
  }

  /** The command a row describes, with this waveform. */
  function Described(row: Row, timings: seq<i32>): Command {
    Command(row.id, row.name, timings, row.gapUs, row.repeatTimes, row.frequencyHz, row.modulation)
  }

  /**
   * Every row a boot can meet: not in use; too long or past the last slot; loaded, exactly when the slot's
   * waveform record is a waveform of the row's length and checksum; and damaged otherwise.
   */
  lemma {:induction false} RowVerdicts(cfg: Config, records: Records, i: nat, row: Row, timings: seq<i32>)
    ensures var fate, fits := FateOf(cfg, records, i, row), i < cfg.maxCommands && row.pulses <= cfg.maxPulses;
            && (fate == Vacant <==> !InUse(row))
            && (fate == Unfit <==> InUse(row) && !fits)
            && (fate == Loaded(Described(row, timings)) <==>
                  && InUse(row) && fits && |timings| == row.pulses && TimingsCrc(timings) == row.payloadCrc
                  && PayloadKey(i) in records && records[PayloadKey(i)] == TimingBytes(timings))
            && (fate.Loaded? ==> fate.command == Described(row, fate.command.timings))
            && (fate.Damaged? ==> fate.name == row.name && InUse(row) && fits)
  {
    hide TimingsCrc, TimingBytes, TimingsOf;
    TimingsRoundTrip(timings);
    if PayloadKey(i) in records && |records[PayloadKey(i)]| % 4 == 0 {
      BytesRoundTrip(records[PayloadKey(i)]);
    }
  }

  /**
   * Whatever flash holds, each command a boot finds can be used: it has an id and a name that fits its field,
   * and its waveform, of a length the configuration allows, is the one on flash.
   */
  lemma {:induction false} WhatIsFoundIsUsable(cfg: Config, records: Records, minted: BridgeId, landed: nat)
    requires Load(records, HeaderKey, HEADER_BYTES).Some?
    ensures var slots := Reboot(cfg, records, minted, landed).ram.reg.slots;
            && |slots| == cfg.maxCommands
            && forall i :: 0 <= i < |slots| ==>
                 || slots[i] == FREE
                 || (&& slots[i].Occupied() && 1 <= |slots[i].name| <= 23 && 1 <= |slots[i].timings| <= cfg.maxPulses
                     && WaveformStored(records, i, slots[i]))
  {
    hide Crc16, TallyOf, FirstDamaged, SealIntact, ParseHeader, FateOf, RowAt, FromLe32, WaveformStored;
    var raw := records[HeaderKey];
    var h := ParseHeader(raw);
    if IndexKey in records && |records[IndexKey]| == IndexBytesFor(h.slotCount) {
      var rows := Rows(records[IndexKey], h.slotCount);
      forall i | 0 <= i < |rows| && FateOf(cfg, records, i, rows[i]).Loaded?
        ensures var c := FateOf(cfg, records, i, rows[i]).command;
                && c.Occupied() && 1 <= |c.name| <= 23 && 1 <= |c.timings| <= cfg.maxPulses
                && WaveformStored(records, i, c)
      {
        UsableRow(cfg, records, i, records[IndexKey]);
      }
    }
  }

  lemma {:induction false} UsableRow(cfg: Config, records: Records, i: nat, index: seq<byte>)
    requires IndexBytesFor(i + 1) <= |index| && FateOf(cfg, records, i, RowAt(index, i)).Loaded?
    ensures var c := FateOf(cfg, records, i, RowAt(index, i)).command;
            c.Occupied() && 1 <= |c.name| <= 23 && 1 <= |c.timings| <= cfg.maxPulses && WaveformStored(records, i, c)
  {
    hide TimingsCrc, TimingBytes, FromLe32, FateOf, FromLe16;
    var row := RowAt(index, i);
    RowVerdicts(cfg, records, i, row, FateOf(cfg, records, i, row).command.timings);
  }
}

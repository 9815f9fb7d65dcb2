/**
 * Flash as an ordered key/value store that may lose power after any save, and what a boot reads
 * back from it.
 */
module Flash {
  import opened Bytes
  import opened Checksum
  import opened RegistryModel
  import opened Layout

  datatype Key = HeaderKey | IndexKey | PayloadKey(slot: nat)

  type Records = map<Key, seq<byte>>

  datatype Save = Save(key: Key, data: seq<byte>)

  /** A record loads only at the exact length it was saved with. */
  function Load(records: Records, key: Key, length: nat): Option<seq<byte>> {
    if key in records && |records[key]| == length then Some(records[key]) else None
  }

  // ---- Writing ------------------------------------------------------------------------------

  function IndexSaves(cfg: Config, reg: Registry): (saves: seq<Save>)
    ensures |saves| == 2
  {
    [Save(IndexKey, IndexBytes(reg)), Save(HeaderKey, HeaderBytes(cfg.maxCommands))]
  }

  /** The saves of a write, in order: the waveform, then the index, then the header. */
  function SavesOf(cfg: Config, plan: Plan): seq<Save> {
    match plan
    case Write(next, slot, _) =>
      if 0 <= slot < |next.reg.slots| then
        [Save(PayloadKey(slot), TimingBytes(next.reg.slots[slot].timings))] + IndexSaves(cfg, next.reg)
      else IndexSaves(cfg, next.reg)
    case _ => []
  }

  function Saved(records: Records, saves: seq<Save>): Records
    decreases |saves|
  {
    if saves == [] then records else Saved(records[saves[0].key := saves[0].data], saves[1..])
  }

  /** The saves that reach flash when `landed` of them can. */
  function Landing(saves: seq<Save>, landed: nat): seq<Save> {
    if landed < |saves| then saves[..landed] else saves
  }

  datatype Outcome = Outcome(result: StoreResult, ram: Ram, records: Records)

  /** Run an operation when `landed` more saves will reach flash: the first to be refused ends it. */
  function Perform(cfg: Config, ram: Ram, records: Records, op: Op, landed: nat): Outcome {
    var plan := PlanOf(cfg, ram, op);
    var saves := SavesOf(cfg, plan);
    match plan
    case Refuse(why) => Outcome(why, ram, records)
    case Keep => Outcome(Ok, ram, records)
    case Write(next, _, undo) =>
      var after := Saved(records, Landing(saves, landed));
      if |saves| <= landed then Outcome(Ok, next, after) else Outcome(StorageError, undo, after)
  }

  // ---- Booting ------------------------------------------------------------------------------

  datatype SlotFate = Vacant | Unfit | Damaged(name: Name) | Loaded(command: Command)

  function FateOf(cfg: Config, records: Records, i: nat, row: Row): SlotFate {
    if row.Vacant() then Vacant
    else if i >= cfg.maxCommands || row.pulses > cfg.maxPulses then Unfit
    else
      match Load(records, PayloadKey(i), 4 * (row.pulses as int))
      case None => Damaged(row.name)
      case Some(bytes) =>
        var timings := TimingsOf(bytes);
        if TimingsCrc(timings) != row.payloadCrc then Damaged(row.name)
        else Loaded(Command(row.id, row.name, timings, row.gapUs, row.repeatTimes, row.frequencyHz, row.modulation))
  }

  function Fates(cfg: Config, records: Records, rows: seq<Row>): (f: seq<SlotFate>)
    ensures |f| == |rows|
    ensures forall i :: 0 <= i < |rows| ==> f[i] == FateOf(cfg, records, i, rows[i])
  {
    seq(|rows|, i requires 0 <= i < |rows| => FateOf(cfg, records, i, rows[i]))
  }

  datatype Tally = Tally(loaded: nat, payloadFaults: nat, unfittable: nat)

  function TallyOf(fates: seq<SlotFate>, n: nat): Tally
    requires n <= |fates|
  {
    if n == 0 then Tally(0, 0, 0)
    else
      var t := TallyOf(fates, n - 1);
      match fates[n - 1]
      case Vacant => t
      case Unfit => t.(unfittable := t.unfittable + 1)
      case Damaged(_) => t.(payloadFaults := t.payloadFaults + 1)
      case Loaded(_) => t.(loaded := t.loaded + 1)
  }

  /** The first damaged slot at or after `from`, or -1. */
  function FirstDamaged(fates: seq<SlotFate>, from: nat := 0): (slot: int)
    requires from <= |fates|
    ensures slot >= 0 ==> from <= slot < |fates| && fates[slot].Damaged?
    ensures forall i :: from <= i < (if slot < 0 then |fates| else slot) ==> !fates[i].Damaged?
    ensures slot < 0 ==> slot == -1
    decreases |fates| - from
  {
    if from == |fates| then -1
    else if fates[from].Damaged? then from
    else FirstDamaged(fates, from + 1)
  }

  /** Rows that load replace their slots; every other slot keeps what it held. */
  function Filled(fates: seq<SlotFate>, slots: seq<Command>): (r: seq<Command>)
    ensures |r| == |slots|
    ensures forall i :: 0 <= i < |slots| ==>
              r[i] == if i < |fates| && fates[i].Loaded? then fates[i].command else slots[i]
  {
    seq(|slots|, i requires 0 <= i < |slots| =>
      if i < |fates| && fates[i].Loaded? then fates[i].command else slots[i])
  }

  datatype LoadReport = LoadReport(
    hadStoredData: bool, headerInvalid: bool, versionMismatch: bool, slotCountChanged: bool,
    restoreIncomplete: bool, readOnly: bool, fault: StoreFault, storedVersion: byte, storedSlotCount: byte,
    loaded: nat, payloadFaults: nat, faultSlot: nat, faultName: Name, droppedUnfittable: nat)

  const NOTHING_STORED := LoadReport(false, false, false, false, false, false, NoFault, 0, 0, 0, 0, 0, [], 0)

  function Refused(report: LoadReport, ram: Ram, fault: StoreFault): (LoadReport, Ram) {
    (report.(readOnly := true, fault := fault), ram.(readOnly := true, fault := fault))
  }

  function LoadIndex(cfg: Config, ram: Ram, records: Records, h: Header, report: LoadReport): (LoadReport, Ram) {
    var expected := IndexBytesFor(h.slotCount);
    if h.indexBytes != expected then Refused(report.(headerInvalid := true), ram, HeaderInvalid)
    else
      match Load(records, IndexKey, expected)
      case None => Refused(report, ram, IndexInvalid)
      case Some(raw) =>
        if !SealIntact(raw) then Refused(report, ram, IndexInvalid)
        else
          var fates := Fates(cfg, records, Rows(raw, h.slotCount));
          var t := TallyOf(fates, |fates|);
          var reg := Registry(raw[..16], FromLe32(raw[16..20]), FromLe32(raw[20..24]), raw[24],
                              Filled(fates, ram.reg.slots));
          var damaged := FirstDamaged(fates);
          var report' := report.(restoreIncomplete := reg.restoreState != 0,
                                 slotCountChanged := h.slotCount != cfg.maxCommands,
                                 loaded := t.loaded, payloadFaults := t.payloadFaults,
                                 droppedUnfittable := t.unfittable,
                                 faultSlot := if damaged < 0 then 0 else damaged,
                                 faultName := if damaged < 0 then [] else fates[damaged].name);
          if t.payloadFaults > 0 then Refused(report', ram.(reg := reg), PayloadInvalid)
          else (report', ram.(reg := reg))
  }

  /** Read a stored header and everything it leads to. Nothing is written. */
  function ReadBack(cfg: Config, reg: Registry, records: Records, raw: seq<byte>): (LoadReport, Ram)
    requires |raw| == HEADER_BYTES
  {
    var h := ParseHeader(raw);
    var ram := Ram(reg, false, NoFault);
    var report := NOTHING_STORED.(hadStoredData := true, storedVersion := h.version, storedSlotCount := h.slotCount);
    if h.magic != STORE_MAGIC || !SealIntact(raw) || h.slotCount == 0 then
      Refused(report.(headerInvalid := true), ram, HeaderInvalid)
    else if h.version != STORE_FORMAT_VERSION then
      Refused(report.(versionMismatch := true), ram, VersionUnsupported)
    else LoadIndex(cfg, ram, records, h, report)
  }

  datatype Started = Started(report: LoadReport, ram: Ram, records: Records)

  /** `begin()` over whatever RAM held before it. `minted` is the identity a fresh device draws. */
  function Begin(cfg: Config, reg: Registry, records: Records, minted: BridgeId, landed: nat): Started {
    match Load(records, HeaderKey, HEADER_BYTES)
    case None =>
      var newborn := reg.(bridgeId := minted, nextId := COMMAND_ID_FIRST, revision := REVISION_INITIAL,
                        restoreState := 0);
      Started(NOTHING_STORED, Ram(newborn, false, NoFault),
              Saved(records, Landing(IndexSaves(cfg, newborn), landed)))
    case Some(raw) =>
      var (report, ram) := ReadBack(cfg, reg, records, raw);
      Started(report, ram, records)
  }

  /** What `configure()` leaves in RAM after power-on. */
  function Blank(cfg: Config): Registry {
    Registry([0, 0, 0, 0, 0, 0, 0, 0, 0, 0, 0, 0, 0, 0, 0, 0], COMMAND_ID_FIRST, 0, 0, EmptySlots(cfg))
  }

  function Reboot(cfg: Config, records: Records, minted: BridgeId, landed: nat): Started {
    Begin(cfg, Blank(cfg), records, minted, landed)
  }

  // ---- RAM and flash in step ----------------------------------------------------------------

  /** Header and index describe `reg`. */
  predicate Described(cfg: Config, records: Records, reg: Registry) {
    && HeaderKey in records && records[HeaderKey] == HeaderBytes(cfg.maxCommands)
    && IndexKey in records && records[IndexKey] == IndexBytes(reg)
  }

  predicate WaveformStored(records: Records, i: nat, c: Command) {
    PayloadKey(i) in records && records[PayloadKey(i)] == TimingBytes(c.timings)
  }

  /** Flash holds exactly `reg`: the records describe it and every waveform is the one it lists. */
  ghost predicate InStep(cfg: Config, records: Records, reg: Registry) {
    && Described(cfg, records, reg)
    && forall i :: 0 <= i < |reg.slots| && reg.slots[i].Occupied() ==> WaveformStored(records, i, reg.slots[i])
  }

  /** The report of a clean boot into `reg`. */
  function CleanReport(cfg: Config, reg: Registry): LoadReport {
    NOTHING_STORED.(hadStoredData := true, storedVersion := STORE_FORMAT_VERSION, storedSlotCount := cfg.maxCommands,
                    restoreIncomplete := reg.restoreState != 0, loaded := Count(reg.slots))
  }
}

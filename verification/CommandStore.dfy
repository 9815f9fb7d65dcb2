/**
 * The store itself: fields updated in place, manual rollback, and a storage backend that may refuse
 * a save. Every method is proved against the decision and the save list of its operation.
 */
module CommandStore {
  import opened Bytes
  import opened Checksum
  import opened RegistryModel
  import opened Layout
  import opened Flash

  /** Preferences storage. `fuel` is how many more saves land before one is refused. */
  class StorageBackend {
    var records: Records
    var fuel: nat

    constructor (records: Records, fuel: nat)
      ensures this.records == records && this.fuel == fuel
    {
      this.records, this.fuel := records, fuel;
    }

    method Save(key: Key, data: seq<byte>) returns (ok: bool)
      modifies this
      ensures ok == (old(fuel) > 0)
      ensures records == if ok then old(records)[key := data] else old(records)
      ensures fuel == if ok then old(fuel) - 1 else 0
    {
      ok := fuel > 0;
      if ok {
        records, fuel := records[key := data], fuel - 1;
      }
    }

    method Load(key: Key, length: nat) returns (data: Option<seq<byte>>)
      ensures data == Flash.Load(records, key, length)
    {
      data := if key in records && |records[key]| == length then Some(records[key]) else None;
    }
  }

  lemma {:induction false} SavedStep(records: Records, first: Save, rest: seq<Save>, landed: nat)
    ensures Saved(records, Landing([first] + rest, landed)) ==
            if landed == 0 then records
            else Saved(records[first.key := first.data], Landing(rest, landed - 1))
  {
    var saves := [first] + rest;
    if landed == 0 {
      assert Landing(saves, 0) == [];
    } else {
      assert Landing(saves, landed)[1..] == Landing(rest, landed - 1);
    }
  }

  lemma {:induction false} IndexSavesLand(cfg: Config, reg: Registry, records: Records, landed: nat)
    ensures Saved(records, Landing(IndexSaves(cfg, reg), landed)) ==
            if landed == 0 then records
            else if landed == 1 then records[IndexKey := IndexBytes(reg)]
            else records[IndexKey := IndexBytes(reg)][HeaderKey := HeaderBytes(cfg.maxCommands)]
  {
    hide IndexBytes, HeaderBytes;
    var index, header := Save(IndexKey, IndexBytes(reg)), Save(HeaderKey, HeaderBytes(cfg.maxCommands));
    assert IndexSaves(cfg, reg) == [index] + [header];
    SavedStep(records, index, [header], landed);
    if landed > 0 {
      assert [header] == [header] + [];
      SavedStep(records[IndexKey := index.data], header, [], landed - 1);
    }
  }

  /** How one row's fate enters the report; only the first damaged slot is named. */
  function Tallied(report: LoadReport, i: nat, fate: SlotFate): LoadReport {
    match fate
    case Vacant => report
    case Unfit => report.(droppedUnfittable := report.droppedUnfittable + 1)
    case Damaged(name) =>
      var named := if report.payloadFaults == 0 then report.(faultSlot := i, faultName := name) else report;
      named.(payloadFaults := report.payloadFaults + 1)
    case Loaded(_) => report.(loaded := report.loaded + 1)
  }

  function WithTally(before: LoadReport, t: Tally, slot: nat, name: Name): (r: LoadReport)
    ensures r.faultSlot == slot && r.faultName == name && r.payloadFaults == t.payloadFaults
  {
    before.(loaded := t.loaded, payloadFaults := t.payloadFaults, droppedUnfittable := t.unfittable,
            faultSlot := slot, faultName := name)
  }

  lemma {:induction false} TalliedIs(before: LoadReport, t: Tally, slot: nat, name: Name, i: nat, fate: SlotFate)
    ensures Tallied(WithTally(before, t, slot, name), i, fate) ==
            match fate
            case Vacant => WithTally(before, t, slot, name)
            case Unfit => WithTally(before, t.(unfittable := t.unfittable + 1), slot, name)
            case Damaged(bad) =>
              WithTally(before, t.(payloadFaults := t.payloadFaults + 1), if t.payloadFaults == 0 then i else slot,
                        if t.payloadFaults == 0 then bad else name)
            case Loaded(_) => WithTally(before, t.(loaded := t.loaded + 1), slot, name)
  {
  }

  /** The report names the first damaged slot among the first `n`, if there is one. */
  ghost predicate NamesFirstFault(faults: nat, slot: nat, name: Name, fates: seq<SlotFate>, n: nat)
    requires n <= |fates|
  {
    if faults == 0 then slot == 0 && name == [] && forall j :: 0 <= j < n ==> !fates[j].Damaged?
    else
      && slot < n && fates[slot].Damaged? && name == fates[slot].name
      && forall j :: 0 <= j < slot ==> !fates[j].Damaged?
  }

  /** `report` is `before` plus the first `n` fates. */
  ghost predicate Counted(before: LoadReport, report: LoadReport, fates: seq<SlotFate>, n: nat)
    requires n <= |fates|
  {
    var t := TallyOf(fates, n);
    && report == WithTally(before, t, report.faultSlot, report.faultName)
    && NamesFirstFault(t.payloadFaults, report.faultSlot, report.faultName, fates, n)
  }

  predicate Uncounted(report: LoadReport) {
    && report.loaded == 0 && report.payloadFaults == 0 && report.droppedUnfittable == 0
    && report.faultSlot == 0 && report.faultName == []
  }

  lemma {:induction false} CountedNone(before: LoadReport, fates: seq<SlotFate>)
    requires Uncounted(before)
    ensures Counted(before, before, fates, 0)
  {
  }

  lemma {:induction false} CountedOne(before: LoadReport, report: LoadReport, fates: seq<SlotFate>, i: nat)
    requires i < |fates| && Counted(before, report, fates, i)
    ensures Counted(before, Tallied(report, i, fates[i]), fates, i + 1)
  {
    hide NamesFirstFault, WithTally, Tallied;
    TalliedIs(before, TallyOf(fates, i), report.faultSlot, report.faultName, i, fates[i]);
    NamedOne(report.payloadFaults, report.faultSlot, report.faultName, fates, i);
  }

  lemma {:induction false} NamedOne(faults: nat, slot: nat, name: Name, fates: seq<SlotFate>, i: nat)
    requires i < |fates| && NamesFirstFault(faults, slot, name, fates, i)
    ensures if !fates[i].Damaged? then NamesFirstFault(faults, slot, name, fates, i + 1)
            else if faults == 0 then NamesFirstFault(1, i, fates[i].name, fates, i + 1)
            else NamesFirstFault(faults + 1, slot, name, fates, i + 1)
  {
  }

  lemma {:induction false} CountedAll(before: LoadReport, report: LoadReport, fates: seq<SlotFate>)
    requires Counted(before, report, fates, |fates|)
    ensures var t := TallyOf(fates, |fates|);
            var bad := FirstDamaged(fates);
            report == before.(loaded := t.loaded, payloadFaults := t.payloadFaults, droppedUnfittable := t.unfittable,
                              faultSlot := if bad < 0 then 0 else bad,
                              faultName := if bad < 0 then [] else fates[bad].name)
  {
  }

  class CommandStore {
    const backend: StorageBackend
    const cfg: Config

    var bridgeId: BridgeId
    var nextId: u32
    var revision: u32
    var restoreState: byte
    var readOnly: bool
    var fault: StoreFault
    var slots: seq<Command>

    ghost predicate Valid()
      reads this
    {
      |slots| == cfg.maxCommands
    }

    ghost function Reg(): Registry
      reads this
    {
      Registry(bridgeId, nextId, revision, restoreState, slots)
    }

    ghost function View(): Ram
      reads this
    {
      Ram(Reg(), readOnly, fault)
    }

    /** `configure()`: an unread store. */
    constructor (backend: StorageBackend, cfg: Config)
      ensures Valid() && this.backend == backend && this.cfg == cfg
      ensures View() == Ram(Blank(cfg), false, NoFault)
    {
      this.backend, this.cfg := backend, cfg;
      bridgeId, nextId := [0, 0, 0, 0, 0, 0, 0, 0, 0, 0, 0, 0, 0, 0, 0, 0], COMMAND_ID_FIRST;
      revision, restoreState, readOnly, fault := 0, 0, false, NoFault;
      slots := EmptySlots(cfg);
    }

    // ---- Searching and counting -------------------------------------------------------------

    method Find(q: Query) returns (slot: int)
      requires Valid()
      ensures slot == First(slots, q)
    {
      var i := 0;
      while i < |slots|
        invariant i <= |slots| && First(slots, q) == First(slots, q, i)
      {
        if Matches(q, slots[i]) {
          return i;
        }
        i := i + 1;
      }
      return -1;
    }

    method CountCommands() returns (total: nat)
      ensures total == Count(slots)
    {
      total := 0;
      for i := 0 to |slots|
        invariant total == Occupancy(slots, i)
      {
        if slots[i].Occupied() {
          total := total + 1;
        }
      }
    }

    method Projected(replacing: int, pulses: nat) returns (total: nat)
      requires Valid()
      ensures total == ProjectedBytes(slots, replacing, pulses)
    {
      total := IndexOverhead(cfg.maxCommands);
      for i := 0 to |slots|
        invariant total == IndexOverhead(|slots|) + PayloadBytes(slots, replacing, i)
      {
        if i != replacing && slots[i].Occupied() {
          total := total + 4 * |slots[i].timings|;
        }
      }
      total := total + 4 * pulses;
    }

    /** `get_by_id()`: the command exactly when the id is held, whatever slot it sits in. */
    method GetById(id: u32) returns (found: Option<Command>)
      requires Valid()
      ensures found == if First(slots, ById(id)) >= 0 then Some(slots[First(slots, ById(id))]) else None
    {
      var slot := Find(ById(id));
      found := if slot < 0 then None else Some(slots[slot]);
    }

    // ---- Writing ----------------------------------------------------------------------------

    method WritePayload(slot: nat) returns (ok: bool)
      requires Valid() && slot < |slots|
      modifies backend
      ensures ok == (old(backend.fuel) > 0)
      ensures backend.records == if ok then old(backend.records)[PayloadKey(slot) := TimingBytes(slots[slot].timings)]
                                 else old(backend.records)
      ensures backend.fuel == if ok then old(backend.fuel) - 1 else 0
    {
      ok := backend.Save(PayloadKey(slot), TimingBytes(slots[slot].timings));
    }

    method WriteIndex() returns (ok: bool)
      requires Valid()
      modifies backend
      ensures ok == (old(backend.fuel) >= 2)
      ensures backend.records == Saved(old(backend.records), Landing(IndexSaves(cfg, Reg()), old(backend.fuel)))
    {
      hide Crc16, RowBytes, Le32, Le16;
      var raw := bridgeId + Le32(nextId) + Le32(revision) + [restoreState, 0, 0, 0];
      for i := 0 to cfg.maxCommands
        invariant raw == MetaBytes(Reg()) + RowsUpTo(slots, i)
        invariant backend.records == old(backend.records) && backend.fuel == old(backend.fuel)
      {
        raw := raw + RowBytes(slots[i]);
      }
      var crc := Crc16Ccitt(raw);
      raw := raw + Le16(crc);
      assert raw == IndexBytes(Reg());
      IndexSavesLand(cfg, Reg(), backend.records, backend.fuel);
      ok := backend.Save(IndexKey, raw);
      if ok {
        ok := WriteHeader();
      }
    }

    method WriteHeader() returns (ok: bool)
      requires Valid()
      modifies backend
      ensures ok == (old(backend.fuel) > 0)
      ensures backend.records == if ok then old(backend.records)[HeaderKey := HeaderBytes(cfg.maxCommands)]
                                 else old(backend.records)
    {
      var header := Le16(STORE_MAGIC) + [STORE_FORMAT_VERSION, cfg.maxCommands] +
                    Le16(IndexBytesFor(cfg.maxCommands)) + Le16(0);
      var crc := Crc16Ccitt(header);
      ok := backend.Save(HeaderKey, header + Le16(crc));
    }

    /** Payload first, then the index: the save list of a stored waveform. */
    method WriteSlot(slot: nat) returns (ok: bool)
      requires Valid() && slot < |slots|
      modifies backend
      ensures ok == (old(backend.fuel) >= 3)
      ensures backend.records == Saved(old(backend.records),
        Landing([Save(PayloadKey(slot), TimingBytes(slots[slot].timings))] + IndexSaves(cfg, Reg()), old(backend.fuel)))
    {
      hide TimingBytes, IndexSaves;
      SavedStep(backend.records, Save(PayloadKey(slot), TimingBytes(slots[slot].timings)), IndexSaves(cfg, Reg()),
                backend.fuel);
      ok := WritePayload(slot);
      if ok {
        ok := WriteIndex();
      }
    }

    // ---- Mutations --------------------------------------------------------------------------

    method Writable() returns (gate: StoreResult)
      ensures gate == Gate(View())
    {
      if readOnly {
        return ReadOnly;
      }
      if restoreState != 0 {
        return RestoreInProgress;
      }
      return Ok;
    }

    ghost predicate Performed(op: Op, was: Ram, records: Records, fuel: nat, result: StoreResult)
      reads this, backend
    {
      Outcome(result, View(), backend.records) == Perform(cfg, was, records, op, fuel)
    }

    method Put(command: Command) returns (result: StoreResult)
      requires Valid()
      modifies this, backend
      ensures Valid()
      ensures Performed(RegistryModel.Put(command), old(View()), old(backend.records), old(backend.fuel), result)
    {
      hide ValidateName, TimingBytes, IndexSaves, Saved, ProjectedBytes, First, Landing, PayloadBytes, Footprint;
      var gate := Writable();
      if gate != Ok {
        return gate;
      }
      if ValidateName(command.name) != Ok {
        return ValidateName(command.name);
      }
      if command.timings == [] || |command.timings| > cfg.maxPulses {
        return TooManyPulses;
      }

      var slot := Find(ByName(command.name));
      var overwriting := slot >= 0;
      var id: u32;
      if overwriting {
        id := slots[slot].id;
      } else {
        slot := Find(AnyFree);
        if slot < 0 {
          return StoreFull;
        }
        if nextId > COMMAND_ID_LAST {
          return IdExhausted;
        }
        id := nextId;
      }

      var projected := Projected(if overwriting then slot else -1, |command.timings|);
      if projected > cfg.maxBytes {
        return BudgetExceeded;
      }

      var previous, previousNextId, previousRevision := slots[slot], nextId, revision;
      if revision >= REVISION_MAX {
        return RevisionExhausted;
      }
      slots := slots[slot := command.(id := id)];
      if !overwriting {
        nextId := id as int + 1;
      }
      revision := revision as int + 1;

      var saved := WriteSlot(slot);
      if !saved {
        PutBack(slot, previous, previousNextId, previousRevision);
        return StorageError;
      }
      return Ok;
    }

    method PutBack(slot: nat, previous: Command, previousNextId: u32, previousRevision: u32)
      requires slot < |slots|
      modifies this
      ensures View() == old(View()).(reg := old(Reg()).(slots := old(slots)[slot := previous], nextId := previousNextId,
                                                        revision := previousRevision))
    {
      slots := slots[slot := previous];
      nextId, revision := previousNextId, previousRevision;
    }

    method Rename(id: u32, newName: Name) returns (result: StoreResult)
      requires Valid()
      modifies this, backend
      ensures Valid()
      ensures Performed(RegistryModel.Rename(id, newName), old(View()), old(backend.records),
                        old(backend.fuel), result)
    {
      hide ValidateName, IndexSaves, Saved, First;
      var gate := Writable();
      if gate != Ok {
        return gate;
      }
      if ValidateName(newName) != Ok {
        return ValidateName(newName);
      }
      var slot := Find(ById(id));
      if slot < 0 {
        return NotFound;
      }
      if slots[slot].name == newName {
        return Ok;
      }
      var taken := Find(ByName(newName));
      if taken >= 0 {
        return NameTaken;
      }

      var previous, previousRevision := slots[slot].name, revision;
      if revision >= REVISION_MAX {
        return RevisionExhausted;
      }
      slots := slots[slot := slots[slot].(name := newName)];
      revision := revision as int + 1;
      var saved := WriteIndex();
      if !saved {
        slots := slots[slot := slots[slot].(name := previous)];
        revision := previousRevision;
        return StorageError;
      }
      return Ok;
    }

    method Remove(name: Name) returns (result: StoreResult)
      requires Valid()
      modifies this, backend
      ensures Valid()
      ensures Performed(RegistryModel.Remove(name), old(View()), old(backend.records), old(backend.fuel), result)
    {
      hide IndexSaves, Saved, First;
      var gate := Writable();
      if gate != Ok {
        return gate;
      }
      var slot := Find(ByName(name));
      if slot < 0 {
        return NotFound;
      }
      result := RemoveById(slots[slot].id);
    }

    method RemoveById(id: u32) returns (result: StoreResult)
      requires Valid()
      modifies this, backend
      ensures Valid()
      ensures Performed(RegistryModel.RemoveById(id), old(View()), old(backend.records), old(backend.fuel), result)
    {
      hide IndexSaves, Saved, First;
      var gate := Writable();
      if gate != Ok {
        return gate;
      }
      var slot := Find(ById(id));
      if slot < 0 {
        return NotFound;
      }
      if revision >= REVISION_MAX {
        return RevisionExhausted;
      }
      var previous, previousRevision := slots[slot], revision;
      slots := slots[slot := FREE];
      revision := revision as int + 1;
      var saved := WriteIndex();
      if !saved {
        slots := slots[slot := previous];
        revision := previousRevision;
        return StorageError;
      }
      return Ok;
    }

    method ClearAll() returns (result: StoreResult)
      requires Valid()
      modifies this, backend
      ensures Valid() && Performed(RegistryModel.ClearAll, old(View()), old(backend.records), old(backend.fuel), result)
    {
      hide IndexSaves, Saved, Occupancy;
      if readOnly {
        return ReadOnly;
      }
      var count := CountCommands();
      if count == 0 && restoreState == 0 {
        return Ok;
      }
      var previous, previousRevision := slots, revision;
      if revision >= REVISION_MAX {
        return RevisionExhausted;
      }
      var previousRestoreState := restoreState;
      slots, restoreState, revision := EmptySlots(cfg), 0, revision as int + 1;
      var saved := WriteIndex();
      if !saved {
        slots, restoreState, revision := previous, previousRestoreState, previousRevision;
        return StorageError;
      }
      return Ok;
    }

    /** `minted` is what the random source delivered, or all zeros when it failed. */
    method FactoryReset(minted: BridgeId) returns (result: StoreResult)
      requires Valid()
      modifies this, backend
      ensures Valid()
      ensures Performed(RegistryModel.FactoryReset(minted), old(View()), old(backend.records),
                        old(backend.fuel), result)
    {
      hide IndexSaves, Saved;
      slots := EmptySlots(cfg);
      MintIdentity(minted);
      var saved := WriteIndex();
      if !saved {
        return StorageError;
      }
      readOnly, fault := false, NoFault;
      return Ok;
    }

    method MintIdentity(minted: BridgeId)
      modifies this
      ensures bridgeId == minted && nextId == COMMAND_ID_FIRST && revision == REVISION_INITIAL && restoreState == 0
      ensures slots == old(slots) && readOnly == old(readOnly) && fault == old(fault)
    {
      bridgeId, nextId, revision, restoreState := minted, COMMAND_ID_FIRST, REVISION_INITIAL, 0;
    }

    method RestoreBegin(newBridgeId: BridgeId, newNextId: u32) returns (result: StoreResult)
      requires Valid()
      modifies this, backend
      ensures Valid()
      ensures Performed(RegistryModel.RestoreBegin(newBridgeId, newNextId), old(View()), old(backend.records),
                        old(backend.fuel), result)
    {
      hide IndexSaves, Saved, Occupancy;
      if readOnly {
        return ReadOnly;
      }
      var count := CountCommands();
      if count != 0 {
        return RestoreNotEmpty;
      }
      if newNextId < COMMAND_ID_FIRST || newNextId > COMMAND_ID_LAST as int + 1 {
        return IdConflict;
      }
      var previousBridge, previousNextId, previousRevision := bridgeId, nextId, revision;
      if revision >= REVISION_MAX {
        return RevisionExhausted;
      }
      var previousRestoreState := restoreState;
      bridgeId, nextId, restoreState, revision := newBridgeId, newNextId, 1, revision as int + 1;
      var saved := WriteIndex();
      if !saved {
        bridgeId, nextId := previousBridge, previousNextId;
        restoreState, revision := previousRestoreState, previousRevision;
        return StorageError;
      }
      return Ok;
    }

    method ImportCommand(command: Command) returns (result: StoreResult)
      requires Valid()
      modifies this, backend
      ensures Valid() && Performed(Import(command), old(View()), old(backend.records), old(backend.fuel), result)
    {
      hide ValidateName, TimingBytes, IndexSaves, Saved, PayloadBytes, First;
      if readOnly {
        return ReadOnly;
      }
      if restoreState == 0 {
        return RestoreNotActive;
      }
      if ValidateName(command.name) != Ok {
        return ValidateName(command.name);
      }
      var byId := Find(ById(command.id));
      if command.id == COMMAND_ID_NONE || command.id >= nextId || byId >= 0 {
        return IdConflict;
      }
      var byName := Find(ByName(command.name));
      if byName >= 0 {
        return NameTaken;
      }
      if command.timings == [] || |command.timings| > cfg.maxPulses {
        return TooManyPulses;
      }
      var slot := Find(AnyFree);
      if slot < 0 {
        return StoreFull;
      }
      var projected := Projected(-1, |command.timings|);
      if projected > cfg.maxBytes {
        return BudgetExceeded;
      }
      var previousRevision := revision;
      if revision >= REVISION_MAX {
        return RevisionExhausted;
      }
      slots, revision := slots[slot := command], revision as int + 1;
      var saved := WriteSlot(slot);
      if !saved {
        slots, revision := slots[slot := FREE], previousRevision;
        return StorageError;
      }
      return Ok;
    }

    method RestoreCommit(sourceRevision: u32) returns (result: StoreResult)
      requires Valid()
      modifies this, backend
      ensures Valid()
      ensures Performed(RegistryModel.RestoreCommit(sourceRevision), old(View()), old(backend.records),
                        old(backend.fuel), result)
    {
      hide IndexSaves, Saved;
      if readOnly {
        return ReadOnly;
      }
      if restoreState == 0 {
        return RestoreNotActive;
      }
      var base := if sourceRevision > revision then sourceRevision else revision;
      if base >= REVISION_MAX {
        return RevisionExhausted;
      }
      var previousRevision := revision;
      restoreState, revision := 0, base as int + 1;
      var saved := WriteIndex();
      if !saved {
        restoreState, revision := 1, previousRevision;
        return StorageError;
      }
      return Ok;
    }

    // ---- Booting ----------------------------------------------------------------------------

    method EnterReadOnly(report: LoadReport, why: StoreFault) returns (r: LoadReport)
      modifies this
      ensures (r, View()) == Refused(report, old(View()), why)
    {
      readOnly, fault := true, why;
      r := report.(readOnly := true, fault := why);
    }

    method Begin(minted: BridgeId) returns (report: LoadReport)
      requires Valid()
      modifies this, backend
      ensures Valid()
      ensures Started(report, View(), backend.records) ==
              Flash.Begin(cfg, old(Reg()), old(backend.records), minted, old(backend.fuel))
    {
      hide IndexSaves, Saved, LoadIndex, SealIntact;
      report := NOTHING_STORED;
      readOnly, fault := false, NoFault;
      var stored := backend.Load(HeaderKey, HEADER_BYTES);
      if stored == None {
        MintIdentity(minted);
        var _ := WriteIndex();
        return;
      }
      var raw := stored.value;
      var header := ParseHeader(raw);
      report := report.(hadStoredData := true, storedVersion := header.version, storedSlotCount := header.slotCount);
      if header.magic != STORE_MAGIC || !SealIntact(raw) || header.slotCount == 0 {
        report := EnterReadOnly(report.(headerInvalid := true), HeaderInvalid);
        return;
      }
      if header.version != STORE_FORMAT_VERSION {
        report := EnterReadOnly(report.(versionMismatch := true), VersionUnsupported);
        return;
      }
      report := LoadStoredIndex(header, report);
    }

    method ReadMeta(raw: seq<byte>)
      requires META_BYTES <= |raw|
      modifies this
      ensures View().reg == Registry(raw[..16], FromLe32(raw[16..20]), FromLe32(raw[20..24]), raw[24], old(slots))
      ensures View() == old(View()).(reg := View().reg)
    {
      hide FromLe32;
      bridgeId, nextId, revision, restoreState := raw[..16], FromLe32(raw[16..20]), FromLe32(raw[20..24]), raw[24];
    }

    method LoadStoredIndex(header: Header, before: LoadReport) returns (report: LoadReport)
      requires Valid()
      requires Uncounted(before)
      modifies this
      ensures Valid() && (report, View()) == LoadIndex(cfg, old(View()), backend.records, header, before)
    {
      hide SealIntact, FateOf, FromLe32, RowAt, TallyOf, FirstDamaged, Filled, Rows, Fates;
      report := before;
      var expected := IndexBytesFor(header.slotCount);
      if header.indexBytes != expected {
        report := EnterReadOnly(report.(headerInvalid := true), HeaderInvalid);
        return;
      }
      var stored := backend.Load(IndexKey, expected);
      if stored == None || !SealIntact(stored.value) {
        report := EnterReadOnly(report, IndexInvalid);
        return;
      }
      var raw := stored.value;
      ReadMeta(raw);
      report := report.(restoreIncomplete := restoreState != 0,
                                 slotCountChanged := header.slotCount != cfg.maxCommands);
      report := LoadRows(raw, header.slotCount, report);
      if report.payloadFaults > 0 {
        report := EnterReadOnly(report, PayloadInvalid);
      }
    }

    method LoadRows(raw: seq<byte>, n: nat, before: LoadReport) returns (report: LoadReport)
      requires Valid() && IndexBytesFor(n) <= |raw|
      requires Uncounted(before)
      modifies this`slots
      ensures var fates := Fates(cfg, backend.records, Rows(raw, n));
              var t := TallyOf(fates, n);
              var bad := FirstDamaged(fates);
              && slots == Filled(fates, old(slots))
              && report == before.(loaded := t.loaded, payloadFaults := t.payloadFaults,
                                   droppedUnfittable := t.unfittable, faultSlot := if bad < 0 then 0 else bad,
                                   faultName := if bad < 0 then [] else fates[bad].name)
    {
      hide FateOf, RowAt, ParseRow, TallyOf, Counted;
      report := before;
      ghost var fates := Fates(cfg, backend.records, Rows(raw, n));
      CountedNone(before, fates);
      for i := 0 to n
        invariant |slots| == |old(slots)| && Counted(before, report, fates, i)
        invariant forall j :: 0 <= j < |slots| ==>
          slots[j] == if j < i && fates[j].Loaded? then fates[j].command else old(slots)[j]
      {
        var fate := Judge(i, RowAt(raw, i));
        CountedOne(before, report, fates, i);
        if fate.Loaded? {
          slots := slots[i := fate.command];
        }
        report := Tallied(report, i, fate);
      }
      assert slots == Filled(fates, old(slots));
      CountedAll(before, report, fates);
    }

    /** One pass of the loading loop: what becomes of row `i`. */
    method Judge(i: nat, row: Row) returns (fate: SlotFate)
      ensures fate == FateOf(cfg, backend.records, i, row)
      ensures fate.Loaded? ==> i < cfg.maxCommands
    {
      hide TimingsOf, TimingsCrc;
      if row.Vacant() {
        return Vacant;
      }
      if i >= cfg.maxCommands || row.pulses > cfg.maxPulses {
        return Unfit;
      }
      var stored := backend.Load(PayloadKey(i), 4 * (row.pulses as int));
      if stored == None {
        return Damaged(row.name);
      }
      var timings := TimingsOf(stored.value);
      if TimingsCrc(timings) != row.payloadCrc {
        return Damaged(row.name);
      }
      return Loaded(Command(row.id, row.name, timings, row.gapUs, row.repeatTimes, row.frequencyHz, row.modulation));
    }
  }
}

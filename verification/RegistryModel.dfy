/**
 * The command registry as the firmware holds it in RAM, and what each operation decides to do.
 *
 * Every mutation of the store is a decision taken on the registry alone, followed by an ordered
 * list of saves. `Plan` is that decision; what a save list does to flash is the business of `Flash`.
 */
module RegistryModel {
  import opened Bytes

  const NAME_MAX_CHARS: nat := 23
  const COMMAND_ID_NONE: u32 := 0
  const COMMAND_ID_FIRST: u32 := 1
  const COMMAND_ID_LAST: u32 := 0xFFFF_FFFE
  const REVISION_INITIAL: u32 := 1
  const REVISION_MAX: u32 := 0x7FFF_FFFE

  const HEADER_BYTES: nat := 10
  const META_BYTES: nat := 28
  const SLOT_BYTES: nat := 44
  const CRC_BYTES: nat := 2

  /** A C++ byte string. */
  type Name = seq<byte>
  type BridgeId = b: seq<byte> | |b| == 16 witness [0, 0, 0, 0, 0, 0, 0, 0, 0, 0, 0, 0, 0, 0, 0, 0]

  datatype Command = Command(id: u32, name: Name, timings: seq<i32>, gapUs: u32, repeatTimes: u16,
                             frequencyHz: u32, modulation: byte)
  {
    predicate Occupied() { id != COMMAND_ID_NONE }
  }

  const FREE := Command(COMMAND_ID_NONE, [], [], 0, 1, 0, 0)

  datatype Registry = Registry(bridgeId: BridgeId, nextId: u32, revision: u32, restoreState: byte,
                               slots: seq<Command>)

  datatype StoreFault = NoFault | HeaderInvalid | IndexInvalid | VersionUnsupported | PayloadInvalid

  /** Everything a running store knows: the registry and whether it may still be written. */
  datatype Ram = Ram(reg: Registry, readOnly: bool, fault: StoreFault)

  datatype StoreResult =
    | Ok | NameEmpty | NameTooLong | NameInvalid | NameTaken | NotFound | StoreFull | TooManyPulses
    | BudgetExceeded | StorageError | ReadOnly | IdExhausted | RevisionExhausted | IdConflict
    | RestoreNotEmpty | RestoreNotActive | RestoreInProgress

  datatype Limits = Limits(maxCommands: nat, maxPulses: nat, maxBytes: nat)

  /** The bounds the configuration schema enforces before a build. */
  predicate Configurable(l: Limits) {
    && 1 <= l.maxCommands <= 255
    && 4 <= l.maxPulses <= 2048
    && IndexOverhead(l.maxCommands) <= l.maxBytes <= 65535
  }

  type Config = l: Limits | Configurable(l) witness Limits(16, 128, 12288)

  function IndexBytesFor(slotCount: nat): nat {
    META_BYTES + slotCount * SLOT_BYTES + CRC_BYTES
  }

  function IndexOverhead(slotCount: nat): nat {
    HEADER_BYTES + IndexBytesFor(slotCount)
  }

  // ---- Looking through the slots ------------------------------------------------------------

  datatype Query = ByName(name: Name) | ById(id: u32) | AnyFree

  predicate Matches(q: Query, c: Command) {
    match q
    case ByName(name) => c.Occupied() && c.name == name
    case ById(id) => id != COMMAND_ID_NONE && c.id == id
    case AnyFree => !c.Occupied()
  }

  /** The first matching slot at or after `from`, or -1. */
  function First(slots: seq<Command>, q: Query, from: nat := 0): (slot: int)
    requires from <= |slots|
    ensures slot < 0 ==> slot == -1 && forall i :: from <= i < |slots| ==> !Matches(q, slots[i])
    ensures slot >= 0 ==> from <= slot < |slots| && Matches(q, slots[slot])
    ensures slot >= 0 ==> forall i :: from <= i < slot ==> !Matches(q, slots[i])
    decreases |slots| - from
  {
    if from == |slots| then -1
    else if Matches(q, slots[from]) then from
    else First(slots, q, from + 1)
  }

  function Footprint(c: Command): nat {
    if c.Occupied() then 4 * |c.timings| else 0
  }

  /** Waveform bytes of the first `n` slots, leaving out slot `except`. */
  function PayloadBytes(slots: seq<Command>, except: int, n: nat): nat
    requires n <= |slots|
  {
    if n == 0 then 0
    else PayloadBytes(slots, except, n - 1) + (if n - 1 == except then 0 else Footprint(slots[n - 1]))
  }

  function Occupancy(slots: seq<Command>, n: nat): nat
    requires n <= |slots|
  {
    if n == 0 then 0 else Occupancy(slots, n - 1) + (if slots[n - 1].Occupied() then 1 else 0)
  }

  function UsedBytes(slots: seq<Command>): nat {
    IndexOverhead(|slots|) + PayloadBytes(slots, -1, |slots|)
  }

  function ProjectedBytes(slots: seq<Command>, replacing: int, pulses: nat): nat {
    IndexOverhead(|slots|) + PayloadBytes(slots, replacing, |slots|) + 4 * pulses
  }

  function Count(slots: seq<Command>): nat {
    Occupancy(slots, |slots|)
  }

  function EmptySlots(cfg: Config): seq<Command> {
    seq(cfg.maxCommands, _ => FREE)
  }

  // ---- Names and revisions ------------------------------------------------------------------

  predicate AllowedByte(b: byte) {
    || 'a' as int <= b <= 'z' as int
    || 'A' as int <= b <= 'Z' as int
    || '0' as int <= b <= '9' as int
    || b == '_' as int || b == '-' as int || b == '.' as int
  }

  function ValidateName(name: Name): StoreResult {
    if name == [] then NameEmpty
    else if |name| > NAME_MAX_CHARS then NameTooLong
    else if exists i :: 0 <= i < |name| && !AllowedByte(name[i]) then NameInvalid
    else Ok
  }

  function NextRevision(base: u32): Option<u32> {
    if base >= REVISION_MAX then None else Some(base as int + 1)
  }

  // ---- The operations -----------------------------------------------------------------------

  datatype Op =
    | Put(command: Command)
    | Rename(id: u32, name: Name)
    | Remove(name: Name)
    | RemoveById(id: u32)
    | ClearAll
    | FactoryReset(minted: BridgeId)
    | RestoreBegin(bridgeId: BridgeId, nextId: u32)
    | Import(command: Command)
    | RestoreCommit(sourceRevision: u32)

  /**
   * What an operation decides. `Refuse` and `Keep` touch nothing. `Write` saves the waveform of
   * slot `payload` (none when negative) and then the index; RAM becomes `next` if every save
   * lands and `undo` if one does not.
   */
  datatype Plan = Refuse(why: StoreResult) | Keep | Write(next: Ram, payload: int, undo: Ram)

  function Gate(ram: Ram): StoreResult {
    if ram.readOnly then ReadOnly
    else if ram.reg.restoreState != 0 then RestoreInProgress
    else Ok
  }

  function Commit(ram: Ram, next: Registry, payload: int): Plan {
    Write(ram.(reg := next), payload, ram)
  }

  function PutPlan(cfg: Config, ram: Ram, c: Command): Plan {
    var reg := ram.reg;
    var found := First(reg.slots, ByName(c.name));
    var slot := if found >= 0 then found else First(reg.slots, AnyFree);
    var revision := NextRevision(reg.revision);
    if Gate(ram) != Ok then Refuse(Gate(ram))
    else if ValidateName(c.name) != Ok then Refuse(ValidateName(c.name))
    else if c.timings == [] || |c.timings| > cfg.maxPulses then Refuse(TooManyPulses)
    else if slot < 0 then Refuse(StoreFull)
    else if found < 0 && reg.nextId > COMMAND_ID_LAST then Refuse(IdExhausted)
    else if ProjectedBytes(reg.slots, found, |c.timings|) > cfg.maxBytes then Refuse(BudgetExceeded)
    else if revision == None then Refuse(RevisionExhausted)
    else
      var id := if found >= 0 then reg.slots[slot].id else reg.nextId;
      var nextId: u32 := if found >= 0 then reg.nextId else reg.nextId as int + 1;
      Commit(ram, reg.(slots := reg.slots[slot := c.(id := id)], nextId := nextId, revision := revision.value), slot)
  }

  function RenamePlan(ram: Ram, id: u32, name: Name): Plan {
    var reg := ram.reg;
    var slot := First(reg.slots, ById(id));
    var revision := NextRevision(reg.revision);
    if Gate(ram) != Ok then Refuse(Gate(ram))
    else if ValidateName(name) != Ok then Refuse(ValidateName(name))
    else if slot < 0 then Refuse(NotFound)
    else if reg.slots[slot].name == name then Keep
    else if First(reg.slots, ByName(name)) >= 0 then Refuse(NameTaken)
    else if revision == None then Refuse(RevisionExhausted)
    else Commit(ram, reg.(slots := reg.slots[slot := reg.slots[slot].(name := name)], revision := revision.value), -1)
  }

  function RemoveByIdPlan(ram: Ram, id: u32): Plan {
    var reg := ram.reg;
    var slot := First(reg.slots, ById(id));
    var revision := NextRevision(reg.revision);
    if Gate(ram) != Ok then Refuse(Gate(ram))
    else if slot < 0 then Refuse(NotFound)
    else if revision == None then Refuse(RevisionExhausted)
    else Commit(ram, reg.(slots := reg.slots[slot := FREE], revision := revision.value), -1)
  }

  function RemovePlan(ram: Ram, name: Name): Plan {
    var slot := First(ram.reg.slots, ByName(name));
    if Gate(ram) != Ok then Refuse(Gate(ram))
    else if slot < 0 then Refuse(NotFound)
    else RemoveByIdPlan(ram, ram.reg.slots[slot].id)
  }

  function ClearAllPlan(cfg: Config, ram: Ram): Plan {
    var reg := ram.reg;
    var revision := NextRevision(reg.revision);
    if ram.readOnly then Refuse(ReadOnly)
    else if Count(reg.slots) == 0 && reg.restoreState == 0 then Keep
    else if revision == None then Refuse(RevisionExhausted)
    else Commit(ram, reg.(slots := EmptySlots(cfg), restoreState := 0, revision := revision.value), -1)
  }

  function Minted(cfg: Config, id: BridgeId): Registry {
    Registry(id, COMMAND_ID_FIRST, REVISION_INITIAL, 0, EmptySlots(cfg))
  }

  /** The one operation that ignores read-only mode, and the one that never rolls RAM back. */
  function FactoryResetPlan(cfg: Config, ram: Ram, minted: BridgeId): Plan {
    Write(Ram(Minted(cfg, minted), false, NoFault), -1, ram.(reg := Minted(cfg, minted)))
  }

  function RestoreBeginPlan(ram: Ram, bridgeId: BridgeId, nextId: u32): Plan {
    var reg := ram.reg;
    var revision := NextRevision(reg.revision);
    if ram.readOnly then Refuse(ReadOnly)
    else if Count(reg.slots) != 0 then Refuse(RestoreNotEmpty)
    else if nextId < COMMAND_ID_FIRST then Refuse(IdConflict)
    else if revision == None then Refuse(RevisionExhausted)
    else
      Commit(ram, reg.(bridgeId := bridgeId, nextId := nextId, restoreState := 1, revision := revision.value), -1)
  }

  /** A failed import clears the slot it had taken, which was free before. */
  function ImportPlan(cfg: Config, ram: Ram, c: Command): Plan {
    var reg := ram.reg;
    var slot := First(reg.slots, AnyFree);
    var revision := NextRevision(reg.revision);
    if ram.readOnly then Refuse(ReadOnly)
    else if reg.restoreState == 0 then Refuse(RestoreNotActive)
    else if ValidateName(c.name) != Ok then Refuse(ValidateName(c.name))
    else if c.id == COMMAND_ID_NONE || c.id >= reg.nextId || First(reg.slots, ById(c.id)) >= 0 then Refuse(IdConflict)
    else if First(reg.slots, ByName(c.name)) >= 0 then Refuse(NameTaken)
    else if c.timings == [] || |c.timings| > cfg.maxPulses then Refuse(TooManyPulses)
    else if slot < 0 then Refuse(StoreFull)
    else if ProjectedBytes(reg.slots, -1, |c.timings|) > cfg.maxBytes then Refuse(BudgetExceeded)
    else if revision == None then Refuse(RevisionExhausted)
    else
      Write(ram.(reg := reg.(slots := reg.slots[slot := c], revision := revision.value)), slot,
            ram.(reg := reg.(slots := reg.slots[slot := FREE])))
  }

  function Max(a: u32, b: u32): u32 {
    if a > b then a else b
  }

  /** A failed commit puts the restore flag back to 1, whatever nonzero value it was read as. */
  function RestoreCommitPlan(ram: Ram, sourceRevision: u32): Plan {
    var reg := ram.reg;
    var revision := NextRevision(Max(sourceRevision, reg.revision));
    if ram.readOnly then Refuse(ReadOnly)
    else if reg.restoreState == 0 then Refuse(RestoreNotActive)
    else if revision == None then Refuse(RevisionExhausted)
    else Write(ram.(reg := reg.(restoreState := 0, revision := revision.value)), -1,
               ram.(reg := reg.(restoreState := 1)))
  }

  function PlanOf(cfg: Config, ram: Ram, op: Op): Plan {
    match op
    case Put(c) => PutPlan(cfg, ram, c)
    case Rename(id, name) => RenamePlan(ram, id, name)
    case Remove(name) => RemovePlan(ram, name)
    case RemoveById(id) => RemoveByIdPlan(ram, id)
    case ClearAll => ClearAllPlan(cfg, ram)
    case FactoryReset(minted) => FactoryResetPlan(cfg, ram, minted)
    case RestoreBegin(bridgeId, nextId) => RestoreBeginPlan(ram, bridgeId, nextId)
    case Import(c) => ImportPlan(cfg, ram, c)
    case RestoreCommit(source) => RestoreCommitPlan(ram, source)
  }

  // ---- The invariant ------------------------------------------------------------------------

  predicate SlotSound(cfg: Config, nextId: u32, c: Command) {
    if c.Occupied() then
      && ValidateName(c.name) == Ok
      && c.id < nextId
      && 1 <= |c.timings| <= cfg.maxPulses
    else c == FREE
  }

  predicate Distinct(slots: seq<Command>) {
    forall i, j :: 0 <= i < j < |slots| && slots[i].Occupied() && slots[j].Occupied() ==>
      slots[i].id != slots[j].id && slots[i].name != slots[j].name
  }

  ghost predicate Sound(cfg: Config, reg: Registry) {
    && |reg.slots| == cfg.maxCommands
    && 1 <= reg.revision <= REVISION_MAX
    && reg.restoreState <= 1
    && COMMAND_ID_FIRST <= reg.nextId
    && (forall i :: 0 <= i < |reg.slots| ==> SlotSound(cfg, reg.nextId, reg.slots[i]))
    && Distinct(reg.slots)
    && UsedBytes(reg.slots) <= cfg.maxBytes
  }

  /**
   * Putting a command where its name was, or into a free slot when no slot had it, makes that slot the first
   * of the name.
   */
  lemma {:induction false} PlacedByName(before: Registry, after: Registry, name: Name, slot: nat)
    requires slot < |before.slots| == |after.slots| && after.slots == before.slots[slot := after.slots[slot]]
    requires after.slots[slot].name == name && after.slots[slot].Occupied()
    requires First(before.slots, ByName(name)) == slot || First(before.slots, ByName(name)) < 0
    ensures First(after.slots, ByName(name)) == slot
  {
    assert Matches(ByName(name), after.slots[slot]);
    assert forall i :: 0 <= i < slot ==> after.slots[i] == before.slots[i];
    var first := First(after.slots, ByName(name));
    assert 0 <= first <= slot;
  }

  // ---- Arithmetic of the slots --------------------------------------------------------------

  lemma {:induction false} PayloadUpdate(slots: seq<Command>, s: nat, c: Command, n: nat)
    requires s < |slots| && n <= |slots|
    ensures PayloadBytes(slots[s := c], -1, n) ==
            PayloadBytes(slots, s, n) + (if s < n then Footprint(c) else 0)
    ensures PayloadBytes(slots, -1, n) ==
            PayloadBytes(slots, s, n) + (if s < n then Footprint(slots[s]) else 0)
  {
    if n != 0 {
      PayloadUpdate(slots, s, c, n - 1);
    }
  }

  lemma {:induction false} PayloadExceptFree(slots: seq<Command>, s: nat, n: nat)
    requires s < |slots| && n <= |slots| && !slots[s].Occupied()
    ensures PayloadBytes(slots, s, n) == PayloadBytes(slots, -1, n)
  {
    if n != 0 {
      PayloadExceptFree(slots, s, n - 1);
    }
  }

  lemma {:induction false} PayloadOfEmpty(slots: seq<Command>, n: nat)
    requires n <= |slots| && forall i :: 0 <= i < n ==> !slots[i].Occupied()
    ensures PayloadBytes(slots, -1, n) == 0
    ensures Occupancy(slots, n) == 0
  {
    if n != 0 {
      PayloadOfEmpty(slots, n - 1);
    }
  }

  lemma {:induction false} OccupancyZero(slots: seq<Command>, n: nat)
    requires n <= |slots| && Occupancy(slots, n) == 0
    ensures forall i :: 0 <= i < n ==> !slots[i].Occupied()
  {
    if n != 0 {
      OccupancyZero(slots, n - 1);
    }
  }

  // ---- The invariant is kept ----------------------------------------------------------------

  lemma {:induction false} StoringKeepsSound(cfg: Config, reg: Registry, slot: nat, c: Command, nextId: u32,
                                             revision: u32)
    requires Sound(cfg, reg) && slot < |reg.slots|
    requires c.Occupied() && c.id < nextId && reg.nextId <= nextId && 1 <= revision <= REVISION_MAX
    requires ValidateName(c.name) == Ok && 1 <= |c.timings| <= cfg.maxPulses
    requires forall i :: 0 <= i < |reg.slots| && i != slot && reg.slots[i].Occupied() ==>
               reg.slots[i].id != c.id && reg.slots[i].name != c.name
    requires UsedBytes(reg.slots[slot := c]) <= cfg.maxBytes
    ensures Sound(cfg, reg.(slots := reg.slots[slot := c], nextId := nextId, revision := revision))
  {
  }

  lemma {:induction false} StoringUses(reg: Registry, slot: nat, c: Command)
    requires slot < |reg.slots| && c.Occupied()
    ensures UsedBytes(reg.slots[slot := c]) == ProjectedBytes(reg.slots, slot, |c.timings|)
    ensures !reg.slots[slot].Occupied() ==>
              ProjectedBytes(reg.slots, slot, |c.timings|) == ProjectedBytes(reg.slots, -1, |c.timings|)
  {
    PayloadUpdate(reg.slots, slot, c, |reg.slots|);
    if !reg.slots[slot].Occupied() {
      PayloadExceptFree(reg.slots, slot, |reg.slots|);
    }
  }

  lemma {:induction false} PutKeepsSound(cfg: Config, ram: Ram, c: Command)
    requires Sound(cfg, ram.reg) && PutPlan(cfg, ram, c).Write?
    ensures Sound(cfg, PutPlan(cfg, ram, c).next.reg)
  {
    var plan := PutPlan(cfg, ram, c);
    var reg, slot := ram.reg, plan.payload;
    var stored := plan.next.reg.slots[slot];
    StoringUses(reg, slot, stored);
    StoringKeepsSound(cfg, reg, slot, stored, plan.next.reg.nextId, plan.next.reg.revision);
  }

  lemma {:induction false} ImportKeepsSound(cfg: Config, ram: Ram, c: Command)
    requires Sound(cfg, ram.reg) && ImportPlan(cfg, ram, c).Write?
    ensures Sound(cfg, ImportPlan(cfg, ram, c).next.reg) && ImportPlan(cfg, ram, c).undo == ram
  {
    var plan := ImportPlan(cfg, ram, c);
    var reg, slot := ram.reg, plan.payload;
    StoringUses(reg, slot, c);
    assert forall i :: 0 <= i < |reg.slots| && reg.slots[i].Occupied() ==>
      !Matches(ById(c.id), reg.slots[i]) && !Matches(ByName(c.name), reg.slots[i]);
    StoringKeepsSound(cfg, reg, slot, c, reg.nextId, plan.next.reg.revision);
    assert SlotSound(cfg, reg.nextId, reg.slots[slot]);
    assert reg.slots[slot := FREE] == reg.slots;
  }

  lemma {:induction false} RenameKeepsSound(cfg: Config, ram: Ram, id: u32, name: Name)
    requires Sound(cfg, ram.reg) && RenamePlan(ram, id, name).Write?
    ensures Sound(cfg, RenamePlan(ram, id, name).next.reg)
  {
    var reg, slot := ram.reg, First(ram.reg.slots, ById(id));
    var c := reg.slots[slot].(name := name);
    PayloadUpdate(reg.slots, slot, c, |reg.slots|);
    assert forall i :: 0 <= i < |reg.slots| && reg.slots[i].Occupied() ==> !Matches(ByName(name), reg.slots[i]);
    StoringKeepsSound(cfg, reg, slot, c, reg.nextId, RenamePlan(ram, id, name).next.reg.revision);
  }

  lemma {:induction false} RemoveKeepsSound(cfg: Config, ram: Ram, id: u32)
    requires Sound(cfg, ram.reg) && RemoveByIdPlan(ram, id).Write?
    ensures Sound(cfg, RemoveByIdPlan(ram, id).next.reg)
  {
    var reg, slot := ram.reg, First(ram.reg.slots, ById(id));
    PayloadUpdate(reg.slots, slot, FREE, |reg.slots|);
  }

  lemma {:induction false} EmptyIsSound(cfg: Config, reg: Registry)
    requires reg.slots == EmptySlots(cfg)
    requires 1 <= reg.revision <= REVISION_MAX && reg.restoreState <= 1 && COMMAND_ID_FIRST <= reg.nextId
    ensures Sound(cfg, reg)
  {
    PayloadOfEmpty(reg.slots, |reg.slots|);
  }

  /** Every operation, on every outcome, leaves a sound registry sound. */
  lemma {:induction false} PlanKeepsSound(cfg: Config, ram: Ram, op: Op)
    requires Sound(cfg, ram.reg) && PlanOf(cfg, ram, op).Write?
    ensures Sound(cfg, PlanOf(cfg, ram, op).next.reg)
    ensures Sound(cfg, PlanOf(cfg, ram, op).undo.reg)
    ensures !op.FactoryReset? ==> PlanOf(cfg, ram, op).undo == ram
  {
    hide Sound, ValidateName, ProjectedBytes;
    match op
    case Put(c) => PutKeepsSound(cfg, ram, c);
    case Rename(id, name) => RenameKeepsSound(cfg, ram, id, name);
    case Remove(name) =>
      RemoveKeepsSound(cfg, ram, ram.reg.slots[First(ram.reg.slots, ByName(name))].id);
    case RemoveById(id) => RemoveKeepsSound(cfg, ram, id);
    case Import(c) => ImportKeepsSound(cfg, ram, c);
    case _ => RestKeepsSound(cfg, ram, op);
  }

  lemma {:induction false} RestKeepsSound(cfg: Config, ram: Ram, op: Op)
    requires op.ClearAll? || op.FactoryReset? || op.RestoreBegin? || op.RestoreCommit?
    requires Sound(cfg, ram.reg) && PlanOf(cfg, ram, op).Write?
    ensures Sound(cfg, PlanOf(cfg, ram, op).next.reg)
    ensures Sound(cfg, PlanOf(cfg, ram, op).undo.reg)
    ensures !op.FactoryReset? ==> PlanOf(cfg, ram, op).undo == ram
  {
    if op.ClearAll? {
      EmptyIsSound(cfg, PlanOf(cfg, ram, op).next.reg);
    } else if op.FactoryReset? {
      EmptyIsSound(cfg, Minted(cfg, op.minted));
    } else if op.RestoreBegin? {
      OccupancyZero(ram.reg.slots, |ram.reg.slots|);
      assert ram.reg.slots == EmptySlots(cfg);
      EmptyIsSound(cfg, PlanOf(cfg, ram, op).next.reg);
    }
  }
}

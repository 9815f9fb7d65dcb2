/**
 * Restoring a snapshot onto replacement hardware. The device refuses silently, so everything rests
 * on the checks before the first call and after the last.
 */
module Restore {
  import opened Bytes
  import opened RegistryModel
  import opened Layout
  import opened Flash
  import opened Recovery
  import opened Runs
  import opened Bridge
  import opened CommandStore

  datatype Snapshot = Snapshot(bridgeId: string, revision: int, nextId: u32, commands: seq<Command>)

  datatype Problem =
    | TargetReadOnly | TargetRestoring | TargetNotEmpty | TooManyCommands | Oversized | RevisionOutOfDomain
    | WrongIdentity | StillOpen | WrongCount | RevisionNotAdvanced

  /** Reasons not to start, in the order they are looked for. */
  function CheckTarget(status: Status, s: Snapshot): Option<Problem> {
    if status.readOnly then Some(TargetReadOnly)
    else if status.restoreIncomplete then Some(TargetRestoring)
    else if status.Count() != 0 then Some(TargetNotEmpty)
    else if |s.commands| > status.maxCommands then Some(TooManyCommands)
    else if exists i :: 0 <= i < |s.commands| && |s.commands[i].timings| > status.maxPulses then Some(Oversized)
    else if !(0 <= s.revision <= REVISION_MAX) then Some(RevisionOutOfDomain)
    else None
  }

  /** Reasons not to believe the restore happened. */
  function CheckResult(status: Status, s: Snapshot): Option<Problem> {
    if status.bridgeId != s.bridgeId then Some(WrongIdentity)
    else if status.restoreIncomplete then Some(StillOpen)
    else if status.Count() != |s.commands| then Some(WrongCount)
    else if status.revision <= s.revision then Some(RevisionNotAdvanced)
    else None
  }

  // ---- The protocol -------------------------------------------------------------------------

  /** One call: the device acts or refuses, and says nothing either way. */
  function Call(cfg: Config, m: Machine, op: Op, landed: nat): Machine {
    Step(cfg, m, Do(op, landed))
  }

  function BeginCall(cfg: Config, m: Machine, s: Snapshot, landed: nat): Machine {
    match BridgeIdOf(s.bridgeId)
    case None => m
    case Some(id) => Call(cfg, m, RestoreBegin(id, s.nextId), landed)
  }

  /** The import loop from command `k` on. `luck(i)` is how many saves land during call `i`. */
  function Imports(cfg: Config, m: Machine, s: Snapshot, luck: nat -> nat, k: nat): Machine
    requires k <= |s.commands|
    decreases |s.commands| - k
  {
    if k == |s.commands| then m
    else Imports(cfg, Call(cfg, m, Import(s.commands[k]), luck(k + 1)), s, luck, k + 1)
  }

  function CommitCall(cfg: Config, m: Machine, s: Snapshot, landed: nat): Machine {
    if 0 <= s.revision <= REVISION_MAX then Call(cfg, m, RestoreCommit(s.revision), landed) else m
  }

  function Written(cfg: Config, m: Machine, s: Snapshot, luck: nat -> nat): Machine {
    CommitCall(cfg, Imports(cfg, BeginCall(cfg, m, s, luck(0)), s, luck, 0), s, luck(|s.commands| + 1))
  }

  function RestoreRun(cfg: Config, m: Machine, s: Snapshot, luck: nat -> nat): (Option<Problem>, Machine) {
    var problem := CheckTarget(StatusOf(cfg, m.ram), s);
    if problem.Some? then (problem, m)
    else
      var m' := Written(cfg, m, s, luck);
      (CheckResult(StatusOf(cfg, m'.ram), s), m')
  }

  ghost function MachineOf(store: CommandStore): Machine
    reads store, store.backend
  {
    Machine(store.View(), store.backend.records)
  }

  /** `async_restore` over a real store; `problem` is the exception raised, if any. */
  method AsyncRestore(store: CommandStore, s: Snapshot, luck: nat -> nat) returns (problem: Option<Problem>)
    requires store.Valid()
    modifies store, store.backend
    ensures store.Valid()
    ensures (problem, MachineOf(store)) == RestoreRun(store.cfg, old(MachineOf(store)), s, luck)
  {
    hide Perform, StatusOf, BridgeIdOf;
    var before := ReadStatus(store);
    problem := CheckTarget(before, s);
    if problem.Some? {
      return;
    }
    ghost var cfg, start := store.cfg, MachineOf(store);

    var id := ParseBridgeId(s.bridgeId);
    if id.Some? {
      store.backend.fuel := luck(0);
      var _ := store.RestoreBegin(id.value, s.nextId);
    }
    ghost var begun := MachineOf(store);
    assert begun == BeginCall(cfg, start, s, luck(0));
    for k := 0 to |s.commands|
      invariant store.Valid()
      invariant Imports(cfg, MachineOf(store), s, luck, k) == Imports(cfg, begun, s, luck, 0)
    {
      store.backend.fuel := luck(k + 1);
      var _ := store.ImportCommand(s.commands[k]);
    }
    store.backend.fuel := luck(|s.commands| + 1);
    var _ := store.RestoreCommit(s.revision);

    var result := ReadStatus(store);
    problem := CheckResult(result, s);
  }

  method ReadStatus(store: CommandStore) returns (status: Status)
    requires store.Valid()
    ensures status == StatusOf(store.cfg, store.View())
  {
    status := Status(HexOf(store.bridgeId), store.revision, store.nextId, store.restoreState != 0, store.readOnly,
                     store.cfg.maxCommands, store.cfg.maxPulses, Ids(Listed(store.slots)), Names(Listed(store.slots)));
  }

  // ---- While the restore is open ------------------------------------------------------------

  /** Commands in slots 0.., then free slots. */
  function Padded(cfg: Config, commands: seq<Command>): (slots: seq<Command>)
    requires |commands| <= cfg.maxCommands
    ensures |slots| == cfg.maxCommands
    ensures forall i :: 0 <= i < |slots| ==> slots[i] == if i < |commands| then commands[i] else FREE
  {
    commands + seq(cfg.maxCommands - |commands|, _ => FREE)
  }

  /** The restore is open under `id` and has taken exactly the first `k` commands of the snapshot. */
  ghost predicate Taken(cfg: Config, m: Machine, s: Snapshot, id: BridgeId, base: int, k: nat) {
    && k <= |s.commands| && k <= cfg.maxCommands
    && (forall i :: 0 <= i < k ==> s.commands[i].Occupied())
    && !m.ram.readOnly && Sound(cfg, m.ram.reg)
    && m.ram.reg.bridgeId == id && m.ram.reg.nextId == s.nextId && m.ram.reg.restoreState == 1
    && m.ram.reg.revision == base + 1 + k
    && m.ram.reg.slots == Padded(cfg, s.commands[..k])
    && (forall i :: 0 <= i < k ==> WaveformStored(m.records, i, s.commands[i]))
  }

  lemma {:induction false} OccupancyStore(slots: seq<Command>, slot: nat, c: Command, n: nat)
    requires slot < |slots| && !slots[slot].Occupied() && c.Occupied() && n <= |slots|
    ensures Occupancy(slots[slot := c], n) == Occupancy(slots, n) + (if slot < n then 1 else 0)
  {
    if n != 0 {
      OccupancyStore(slots, slot, c, n - 1);
    }
  }

  lemma {:induction false} OccupancyPadded(slots: seq<Command>, k: nat, n: nat)
    requires k <= |slots| && n <= |slots|
    requires forall i :: 0 <= i < |slots| ==> (slots[i].Occupied() <==> i < k)
    ensures Occupancy(slots, n) == if n < k then n else k
  {
    if n != 0 {
      OccupancyPadded(slots, k, n - 1);
    }
  }

  lemma {:induction false} FirstFree(slots: seq<Command>, k: nat)
    requires k <= |slots| && forall i :: 0 <= i < |slots| ==> (slots[i].Occupied() <==> i < k)
    ensures First(slots, AnyFree) == if k < |slots| then k else -1
  {
    if k < |slots| {
      assert Matches(AnyFree, slots[k]);
    }
  }

  /** An import is taken whole, at the next slot, or changes nothing in RAM. */
  lemma {:induction false} ImportCall(cfg: Config, m: Machine, s: Snapshot, id: BridgeId, base: int, k: nat,
                                      landed: nat)
    requires Taken(cfg, m, s, id, base, k) && k < |s.commands|
    ensures var m' := Call(cfg, m, Import(s.commands[k]), landed);
            var plan := ImportPlan(cfg, m.ram, s.commands[k]);
            if plan.Write? && landed >= 3 then Taken(cfg, m', s, id, base, k + 1) else m'.ram == m.ram
  {
    hide Sound, ImportPlan, Saved, SavesOf;
    var op := Import(s.commands[k]);
    if PlanOf(cfg, m.ram, op).Write? {
      SaveCount(cfg, m.ram, op);
      PlanKeepsSound(cfg, m.ram, op);
      FirstFree(m.ram.reg.slots, k);
      ImportWrites(cfg, m.ram, s.commands[k]);
      if landed >= 3 {
        ImportTaken(cfg, m, s, id, base, k, landed);
      }
    }
  }

  lemma {:induction false} ImportWrites(cfg: Config, ram: Ram, c: Command)
    requires ImportPlan(cfg, ram, c).Write?
    ensures var plan := ImportPlan(cfg, ram, c);
            var slot := First(ram.reg.slots, AnyFree);
            && c.Occupied() && slot >= 0 && plan.payload == slot
            && plan.next.reg == ram.reg.(slots := ram.reg.slots[slot := c], revision := ram.reg.revision as int + 1)
            && plan.next == ram.(reg := plan.next.reg)
  {
    hide ValidateName, ProjectedBytes;
  }

  lemma {:induction false} ImportTaken(cfg: Config, m: Machine, s: Snapshot, id: BridgeId, base: int, k: nat,
                                       landed: nat)
    requires Taken(cfg, m, s, id, base, k) && k < |s.commands| && landed >= 3
    requires ImportPlan(cfg, m.ram, s.commands[k]).Write?
    ensures Taken(cfg, Call(cfg, m, Import(s.commands[k]), landed), s, id, base, k + 1)
  {
    hide TimingBytes, IndexBytes, HeaderBytes, ImportPlan, Sound;
    var op := Import(s.commands[k]);
    var plan := PlanOf(cfg, m.ram, op);
    FirstFree(m.ram.reg.slots, k);
    ImportWrites(cfg, m.ram, s.commands[k]);
    SaveCount(cfg, m.ram, op);
    PlanKeepsSound(cfg, m.ram, op);
    CutRecordsAre(cfg, m.ram, m.records, op, landed);
    assert Call(cfg, m, op, landed) == Machine(plan.next, CutRecords(cfg, m.ram, m.records, op, landed));
    assert plan.next.reg.slots == Padded(cfg, s.commands[..k + 1]);
  }

  /** Whatever the device answers, each call adds at most one command. */
  lemma {:induction false} ImportsBounded(cfg: Config, m: Machine, s: Snapshot, luck: nat -> nat, k: nat)
    requires Sound(cfg, m.ram.reg) && k <= |s.commands|
    ensures Count(Imports(cfg, m, s, luck, k).ram.reg.slots) <= Count(m.ram.reg.slots) + |s.commands| - k
    decreases |s.commands| - k
  {
    hide Saved, SavesOf, ValidateName, ProjectedBytes, First, Sound, Occupancy;
    if k < |s.commands| {
      var op := Import(s.commands[k]);
      ImportAddsOne(cfg, m, s.commands[k], luck(k + 1));
      ImportsBounded(cfg, Call(cfg, m, op, luck(k + 1)), s, luck, k + 1);
    }
  }

  lemma {:induction false} ImportAddsOne(cfg: Config, m: Machine, c: Command, landed: nat)
    requires Sound(cfg, m.ram.reg)
    ensures Sound(cfg, Call(cfg, m, Import(c), landed).ram.reg)
    ensures Count(Call(cfg, m, Import(c), landed).ram.reg.slots) <= Count(m.ram.reg.slots) + 1
  {
    hide Saved, SavesOf, ValidateName, ProjectedBytes;
    var plan := ImportPlan(cfg, m.ram, c);
    if plan.Write? {
      PlanKeepsSound(cfg, m.ram, Import(c));
      OccupancyStore(m.ram.reg.slots, plan.payload, c, |m.ram.reg.slots|);
    }
  }

  /** All commands counted means all commands taken, each in its place. */
  lemma {:induction false} AllCountedAllTaken(cfg: Config, m: Machine, s: Snapshot, luck: nat -> nat, id: BridgeId,
                                              base: int, k: nat)
    requires Taken(cfg, m, s, id, base, k)
    requires Count(Imports(cfg, m, s, luck, k).ram.reg.slots) == |s.commands|
    ensures Taken(cfg, Imports(cfg, m, s, luck, k), s, id, base, |s.commands|)
    decreases |s.commands| - k
  {
    hide Sound, Call, ImportPlan, Padded;
    if k < |s.commands| {
      var m' := Call(cfg, m, Import(s.commands[k]), luck(k + 1));
      ImportCall(cfg, m, s, id, base, k, luck(k + 1));
      if m'.ram == m.ram {
        TakenCount(cfg, m, s, id, base, k);
        ImportsBounded(cfg, m', s, luck, k + 1);
        assert false;
      } else {
        AllCountedAllTaken(cfg, m', s, luck, id, base, k + 1);
      }
    }
  }

  lemma {:induction false} TakenCount(cfg: Config, m: Machine, s: Snapshot, id: BridgeId, base: int, k: nat)
    requires Taken(cfg, m, s, id, base, k)
    ensures Count(m.ram.reg.slots) == k && Sound(cfg, m.ram.reg)
  {
    OccupancyPadded(m.ram.reg.slots, k, |m.ram.reg.slots|);
  }

  lemma {:induction false} ClosedRefuses(cfg: Config, m: Machine, op: Op, landed: nat)
    requires !m.ram.readOnly && m.ram.reg.restoreState == 0 && (op.Import? || op.RestoreCommit?)
    ensures Call(cfg, m, op, landed) == m
  {
    assert PlanOf(cfg, m.ram, op) == Refuse(RestoreNotActive);
  }

  /** Without an open restore every import and the commit are refused. */
  lemma {:induction false} ImportsRefused(cfg: Config, m: Machine, s: Snapshot, luck: nat -> nat, k: nat)
    requires !m.ram.readOnly && m.ram.reg.restoreState == 0 && k <= |s.commands|
    ensures Imports(cfg, m, s, luck, k) == m
    decreases |s.commands| - k
  {
    hide Call;
    if k < |s.commands| {
      ClosedRefuses(cfg, m, Import(s.commands[k]), luck(k + 1));
      ImportsRefused(cfg, m, s, luck, k + 1);
    }
  }

  /** Whether an empty writable target accepts the begin call, and both its saves land. */
  predicate Opens(ram: Ram, s: Snapshot, landed: nat) {
    BridgeIdOf(s.bridgeId).Some? && s.nextId >= 1 && ram.reg.revision < REVISION_MAX && landed >= 2
  }

  lemma {:induction false} EmptyIsPadded(cfg: Config, reg: Registry, commands: seq<Command>)
    requires Sound(cfg, reg) && Count(reg.slots) == 0
    ensures reg.slots == Padded(cfg, commands[..0])
  {
    OccupancyZero(reg.slots, |reg.slots|);
    forall i | 0 <= i < |reg.slots|
      ensures reg.slots[i] == FREE
    {
      assert SlotSound(cfg, reg.nextId, reg.slots[i]);
    }
  }

  /** The begin call opens the restore or changes nothing in RAM. */
  lemma {:induction false} BeginEither(cfg: Config, m: Machine, s: Snapshot, landed: nat)
    requires Sound(cfg, m.ram.reg) && CheckTarget(StatusOf(cfg, m.ram), s).None?
    ensures var m' := BeginCall(cfg, m, s, landed);
            if Opens(m.ram, s, landed) then Taken(cfg, m', s, BridgeIdOf(s.bridgeId).value, m.ram.reg.revision, 0)
            else m'.ram == m.ram
  {
    hide BridgeIdOf, IndexBytes, HeaderBytes, HexOf, Saved, Padded, Occupancy;
    var id := BridgeIdOf(s.bridgeId);
    if id.Some? {
      var op := RestoreBegin(id.value, s.nextId);
      var plan := PlanOf(cfg, m.ram, op);
      assert Count(m.ram.reg.slots) == 0;
      EmptyIsPadded(cfg, m.ram.reg, s.commands);
      if plan.Write? {
        PlanKeepsSound(cfg, m.ram, op);
        SaveCount(cfg, m.ram, op);
      }
    }
  }

  /** The restored device: exactly the snapshot, closed, and past its revision, in RAM and on flash. */
  ghost predicate RestoredExactly(cfg: Config, m: Machine, s: Snapshot, base: int) {
    && |s.commands| <= cfg.maxCommands
    && !m.ram.readOnly
    && HexOf(m.ram.reg.bridgeId) == s.bridgeId
    && m.ram.reg.nextId == s.nextId
    && m.ram.reg.restoreState == 0
    && m.ram.reg.revision == (if s.revision > base + 1 + |s.commands| then s.revision else base + 1 + |s.commands|) + 1
    && m.ram.reg.slots == Padded(cfg, s.commands)
    && Sound(cfg, m.ram.reg)
    && InStep(cfg, m.records, m.ram.reg)
  }

  lemma {:induction false} CommitEither(cfg: Config, m: Machine, s: Snapshot, id: BridgeId, base: int, landed: nat)
    requires Taken(cfg, m, s, id, base, |s.commands|) && 0 <= s.revision <= REVISION_MAX
    ensures var m' := CommitCall(cfg, m, s, landed);
            if s.revision < REVISION_MAX && base + 1 + |s.commands| < REVISION_MAX && landed >= 2 then
              HexOf(id) == s.bridgeId ==> RestoredExactly(cfg, m', s, base)
            else m'.ram == m.ram
  {
    hide TimingBytes, IndexBytes, HeaderBytes, HexOf;
    var op := RestoreCommit(s.revision);
    var plan := PlanOf(cfg, m.ram, op);
    assert s.commands[..|s.commands|] == s.commands;
    if plan.Write? {
      PlanKeepsSound(cfg, m.ram, op);
      SaveCount(cfg, m.ram, op);
      if landed >= 2 {
        CommittedInStep(cfg, m.ram, m.records, op, landed);
      }
    }
  }

  // ---- Soundness ----------------------------------------------------------------------------

  /**
   * Refusals are silent and any save of any call may fail; yet a restore that raises nothing has written
   * exactly its snapshot, to RAM and to flash, and a reboot finds it. The one restore this cannot be
   * said of is that of an empty snapshot whose very first call was refused.
   */
  lemma {:induction false} RestoreIsSound(cfg: Config, m: Machine, s: Snapshot, luck: nat -> nat, minted: BridgeId)
    requires Sound(cfg, m.ram.reg) && (s.commands != [] || Opens(m.ram, s, luck(0)))
    requires RestoreRun(cfg, m, s, luck).0 == None
    ensures var m' := RestoreRun(cfg, m, s, luck).1;
            && RestoredExactly(cfg, m', s, m.ram.reg.revision)
            && m'.ram.reg.revision > s.revision
            && Reboot(cfg, m'.records, minted, 0).ram == Ram(m'.ram.reg, false, NoFault)
  {
    hide Sound, Saved, Perform, IndexBytes, HeaderBytes, Begin, HexOf, BridgeIdOf, InStep, Padded, Occupancy;
    var begun := BeginCall(cfg, m, s, luck(0));
    BeginEither(cfg, m, s, luck(0));
    if !Opens(m.ram, s, luck(0)) {
      NothingRestored(cfg, begun, s, luck);
      assert false;
    } else {
      var id := BridgeIdOf(s.bridgeId).value;
      var base := m.ram.reg.revision;
      TakenSound(cfg, begun, s, id, base);
      FinishedRestore(cfg, begun, s, luck, id, base);
      RoundTrip(cfg, RestoreRun(cfg, m, s, luck).1.records, RestoreRun(cfg, m, s, luck).1.ram.reg, minted, 0);
    }
  }

  lemma {:induction false} TakenSound(cfg: Config, m: Machine, s: Snapshot, id: BridgeId, base: int)
    requires Taken(cfg, m, s, id, base, 0)
    ensures Sound(cfg, m.ram.reg)
  {
  }

  /** A restore that never opened leaves the target empty, and the count gives it away. */
  lemma {:induction false} NothingRestored(cfg: Config, m: Machine, s: Snapshot, luck: nat -> nat)
    requires CheckTarget(StatusOf(cfg, m.ram), s).None? && s.commands != []
    ensures var m' := CommitCall(cfg, Imports(cfg, m, s, luck, 0), s, luck(|s.commands| + 1));
            m' == m && CheckResult(StatusOf(cfg, m'.ram), s).Some?
  {
    hide HexOf, Call;
    ImportsRefused(cfg, m, s, luck, 0);
    RefusedCommit(cfg, m, s, luck(|s.commands| + 1));
  }

  lemma {:induction false} FinishedRestore(cfg: Config, begun: Machine, s: Snapshot, luck: nat -> nat, id: BridgeId,
                                           base: int)
    requires Taken(cfg, begun, s, id, base, 0) && 0 <= s.revision <= REVISION_MAX
    requires var m' := CommitCall(cfg, Imports(cfg, begun, s, luck, 0), s, luck(|s.commands| + 1));
             CheckResult(StatusOf(cfg, m'.ram), s).None?
    ensures var m' := CommitCall(cfg, Imports(cfg, begun, s, luck, 0), s, luck(|s.commands| + 1));
            RestoredExactly(cfg, m', s, base)
  {
    hide Sound, IndexBytes, HeaderBytes, HexOf, InStep, Padded, Saved, SavesOf, Occupancy;
    var filled := Imports(cfg, begun, s, luck, 0);
    CommitKeepsSlots(cfg, filled, s, luck(|s.commands| + 1));
    AllCountedAllTaken(cfg, begun, s, luck, id, base, 0);
    CommitEither(cfg, filled, s, id, base, luck(|s.commands| + 1));
  }

  lemma {:induction false} CommitKeepsSlots(cfg: Config, m: Machine, s: Snapshot, landed: nat)
    ensures CommitCall(cfg, m, s, landed).ram.reg.slots == m.ram.reg.slots
    ensures CommitCall(cfg, m, s, landed).ram.reg.bridgeId == m.ram.reg.bridgeId
  {
    hide Saved, SavesOf;
  }

  // ---- Completeness -------------------------------------------------------------------------

  predicate NothingHeld(slots: seq<Command>) {
    forall i :: 0 <= i < |slots| ==> !slots[i].Occupied()
  }

  /** When the check refuses, and for which reason: the first that applies to the device and the snapshot. */
  lemma {:induction false} CheckRefusesExactly(cfg: Config, ram: Ram, s: Snapshot)
    ensures var problem, reg := CheckTarget(StatusOf(cfg, ram), s), ram.reg;
            var ready := !ram.readOnly && reg.restoreState == 0 && NothingHeld(reg.slots);
            var short := forall i :: 0 <= i < |s.commands| ==> |s.commands[i].timings| <= cfg.maxPulses;
            && (problem == None <==>
                  ready && |s.commands| <= cfg.maxCommands && short && 0 <= s.revision <= REVISION_MAX)
            && (problem == Some(TargetReadOnly) <==> ram.readOnly)
            && (problem == Some(TargetRestoring) <==> !ram.readOnly && reg.restoreState != 0)
            && (problem == Some(TargetNotEmpty) <==>
                  !ram.readOnly && reg.restoreState == 0 && !NothingHeld(reg.slots))
            && (problem == Some(TooManyCommands) <==> ready && |s.commands| > cfg.maxCommands)
            && (problem == Some(Oversized) <==> ready && |s.commands| <= cfg.maxCommands && !short)
            && (problem == Some(RevisionOutOfDomain) <==>
                  ready && |s.commands| <= cfg.maxCommands && short && !(0 <= s.revision <= REVISION_MAX))
  {
    hide HexOf, Occupancy;
    NoneCounted(ram.reg.slots);
  }

  lemma {:induction false} NoneCounted(slots: seq<Command>)
    ensures Count(slots) == 0 <==> NothingHeld(slots)
  {
    if NothingHeld(slots) {
      OccupancyTail(slots, 0, |slots|);
    } else if Count(slots) == 0 {
      OccupancyZero(slots, |slots|);
    }
  }

  lemma {:induction false} RestorablePasses(cfg: Config, ram: Ram, s: Snapshot)
    requires Restorable(cfg, ram, s)
    ensures CheckTarget(StatusOf(cfg, ram), s) == None
  {
    hide BridgeIdOf, Lower, ValidateName, Distinct;
    CheckRefusesExactly(cfg, ram, s);
    forall i | 0 <= i < |s.commands|
      ensures |s.commands[i].timings| <= cfg.maxPulses
    {
      assert SlotSound(cfg, s.nextId, s.commands[i]);
    }
  }

  /** Everything the device asks of a snapshot, stated on the two of them. */
  ghost predicate Restorable(cfg: Config, ram: Ram, s: Snapshot) {
    && !ram.readOnly && ram.reg.restoreState == 0 && NothingHeld(ram.reg.slots)
    && |s.bridgeId| == 32 && BridgeIdOf(s.bridgeId).Some? && Lower(s.bridgeId) == s.bridgeId
    && s.nextId >= 1
    && 0 <= s.revision < REVISION_MAX && ram.reg.revision + 1 + |s.commands| < REVISION_MAX
    && |s.commands| <= cfg.maxCommands
    && (forall i :: 0 <= i < |s.commands| ==> s.commands[i].Occupied() && SlotSound(cfg, s.nextId, s.commands[i]))
    && Distinct(s.commands)
    && IndexOverhead(cfg.maxCommands) + PayloadBytes(s.commands, -1, |s.commands|) <= cfg.maxBytes
  }

  lemma {:induction false} PayloadPrefix(a: seq<Command>, b: seq<Command>, n: nat)
    requires n <= |a| && n <= |b| && forall i :: 0 <= i < n ==> a[i] == b[i]
    ensures PayloadBytes(a, -1, n) == PayloadBytes(b, -1, n)
  {
    if n != 0 {
      PayloadPrefix(a, b, n - 1);
    }
  }

  lemma {:induction false} PayloadGrows(a: seq<Command>, k: nat, n: nat)
    requires k <= n <= |a|
    ensures PayloadBytes(a, -1, k) <= PayloadBytes(a, -1, n)
    ensures (forall i :: k <= i < n ==> !a[i].Occupied()) ==> PayloadBytes(a, -1, k) == PayloadBytes(a, -1, n)
  {
    if k < n {
      PayloadGrows(a, k, n - 1);
    }
  }

  lemma {:induction false} NextImportFits(cfg: Config, m: Machine, s: Snapshot, id: BridgeId, base: int, k: nat)
    requires Taken(cfg, m, s, id, base, k) && k < |s.commands| <= cfg.maxCommands
    requires IndexOverhead(cfg.maxCommands) + PayloadBytes(s.commands, -1, |s.commands|) <= cfg.maxBytes
    requires s.commands[k].Occupied()
    ensures ProjectedBytes(m.ram.reg.slots, -1, |s.commands[k].timings|) <= cfg.maxBytes
  {
    var slots := m.ram.reg.slots;
    PayloadPrefix(slots, s.commands, k);
    PayloadGrows(slots, k, |slots|);
    PayloadGrows(s.commands, k + 1, |s.commands|);
  }

  lemma {:induction false} NextImportAccepted(cfg: Config, m: Machine, s: Snapshot, id: BridgeId, base: int, k: nat)
    requires Taken(cfg, m, s, id, base, k) && k < |s.commands| <= cfg.maxCommands
    requires base + 1 + |s.commands| < REVISION_MAX
    requires forall i :: 0 <= i < |s.commands| ==> s.commands[i].Occupied() && SlotSound(cfg, s.nextId, s.commands[i])
    requires Distinct(s.commands)
    requires ProjectedBytes(m.ram.reg.slots, -1, |s.commands[k].timings|) <= cfg.maxBytes
    ensures ImportPlan(cfg, m.ram, s.commands[k]).Write?
  {
    hide ValidateName, ProjectedBytes, Sound;
    var c, slots := s.commands[k], m.ram.reg.slots;
    FirstFree(slots, k);
    assert SlotSound(cfg, s.nextId, c);
    forall i | 0 <= i < |slots|
      ensures !Matches(ById(c.id), slots[i]) && !Matches(ByName(c.name), slots[i])
    {
    }
  }

  lemma {:induction false} ImportsSucceed(cfg: Config, ram: Ram, m: Machine, s: Snapshot, luck: nat -> nat,
                                          id: BridgeId, base: int, k: nat)
    requires Restorable(cfg, ram, s) && base == ram.reg.revision
    requires Taken(cfg, m, s, id, base, k) && forall i :: luck(i) >= 3
    ensures Taken(cfg, Imports(cfg, m, s, luck, k), s, id, base, |s.commands|)
    decreases |s.commands| - k
  {
    hide Perform, StatusOf, BridgeIdOf, Lower, ImportPlan, Taken, SlotSound;
    if k < |s.commands| {
      NextImportFits(cfg, m, s, id, base, k);
      NextImportAccepted(cfg, m, s, id, base, k);
      ImportCall(cfg, m, s, id, base, k, luck(k + 1));
      ImportsSucceed(cfg, ram, Call(cfg, m, Import(s.commands[k]), luck(k + 1)), s, luck, id, base, k + 1);
    } else {
      TakenIsAll(cfg, m, s, id, base, k);
    }
  }

  lemma {:induction false} TakenIsAll(cfg: Config, m: Machine, s: Snapshot, id: BridgeId, base: int, k: nat)
    requires Taken(cfg, m, s, id, base, k) && k >= |s.commands|
    ensures k == |s.commands|
  {
  }

  /** With storage that works, whatever fits is restored: begin, every import and the commit succeed. */
  lemma {:induction false} RestoreCompletes(cfg: Config, m: Machine, s: Snapshot, luck: nat -> nat)
    requires Sound(cfg, m.ram.reg) && Restorable(cfg, m.ram, s) && forall i :: luck(i) >= 3
    ensures RestoreRun(cfg, m, s, luck).0 == None
    ensures RestoredExactly(cfg, RestoreRun(cfg, m, s, luck).1, s, m.ram.reg.revision)
  {
    hide Sound, Perform, IndexBytes, HeaderBytes, HexOf, InStep, Imports, SlotSound, Taken, Distinct;
    var base := m.ram.reg.revision;
    var id := BridgeIdOf(s.bridgeId).value;
    HexCanonical(s.bridgeId);
    RestorablePasses(cfg, m.ram, s);
    BeginEither(cfg, m, s, luck(0));
    var begun := BeginCall(cfg, m, s, luck(0));
    ImportsSucceed(cfg, m.ram, begun, s, luck, id, base, 0);
    var filled := Imports(cfg, begun, s, luck, 0);
    CommitEither(cfg, filled, s, id, base, luck(|s.commands| + 1));
    CountPadded(cfg, s, CommitCall(cfg, filled, s, luck(|s.commands| + 1)).ram.reg.slots);
  }

  lemma {:induction false} CountPadded(cfg: Config, s: Snapshot, slots: seq<Command>)
    requires |s.commands| <= cfg.maxCommands && slots == Padded(cfg, s.commands)
    requires forall i :: 0 <= i < |s.commands| ==> s.commands[i].Occupied()
    ensures Count(slots) == |s.commands|
  {
    OccupancyPadded(slots, |s.commands|, |slots|);
  }

  lemma {:induction false} RestoredWasRestorable(cfg: Config, m: Machine, s: Snapshot, m': Machine)
    requires CheckTarget(StatusOf(cfg, m.ram), s).None? && RestoredExactly(cfg, m', s, m.ram.reg.revision)
    requires Count(m'.ram.reg.slots) == |s.commands|
    ensures Restorable(cfg, m.ram, s)
  {
    hide InStep, ValidateName, CheckTarget, StatusOf, HexOf;
    CheckRefusesExactly(cfg, m.ram, s);
    var slots := m'.ram.reg.slots;
    var id := m'.ram.reg.bridgeId;
    HexRoundTrip(id);
    HexCanonical(s.bridgeId);
    AllOccupied(s.commands, slots);
    forall i | 0 <= i < |s.commands|
      ensures SlotSound(cfg, s.nextId, s.commands[i])
    {
      assert SlotSound(cfg, s.nextId, slots[i]);
    }
    assert Distinct(s.commands) by {
      forall i, j | 0 <= i < j < |s.commands| && s.commands[i].Occupied() && s.commands[j].Occupied()
        ensures s.commands[i].id != s.commands[j].id && s.commands[i].name != s.commands[j].name
      {
        assert slots[i] == s.commands[i] && slots[j] == s.commands[j];
      }
    }
    PayloadPrefix(slots, s.commands, |s.commands|);
    PayloadGrows(slots, |s.commands|, |slots|);
  }

  lemma {:induction false} AllOccupied(commands: seq<Command>, slots: seq<Command>)
    requires |commands| <= |slots| && Count(slots) == |commands|
    requires forall i :: 0 <= i < |slots| ==> slots[i] == if i < |commands| then commands[i] else FREE
    ensures forall i :: 0 <= i < |commands| ==> commands[i].Occupied()
  {
    OccupancyTail(slots, |commands|, |slots|);
    FullPrefix(slots, |commands|);
  }

  lemma {:induction false} OccupancyTail(slots: seq<Command>, k: nat, n: nat)
    requires k <= n <= |slots| && forall i :: k <= i < n ==> !slots[i].Occupied()
    ensures Occupancy(slots, n) == Occupancy(slots, k)
  {
    if k < n {
      OccupancyTail(slots, k, n - 1);
    }
  }

  lemma {:induction false} FullPrefix(slots: seq<Command>, n: nat)
    requires n <= |slots| && Occupancy(slots, n) >= n
    ensures Occupancy(slots, n) == n && forall i :: 0 <= i < n ==> slots[i].Occupied()
  {
    if n != 0 {
      OccupancyAtMost(slots, n - 1);
      FullPrefix(slots, n - 1);
    }
  }

  lemma {:induction false} OccupancyAtMost(slots: seq<Command>, n: nat)
    requires n <= |slots|
    ensures Occupancy(slots, n) <= n
  {
    if n != 0 {
      OccupancyAtMost(slots, n - 1);
    }
  }

  /** With storage that works, a restore of a non-empty snapshot raises nothing exactly when it fits. */
  lemma {:induction false} RestoreSucceedsIffRestorable(cfg: Config, m: Machine, s: Snapshot, luck: nat -> nat)
    requires Sound(cfg, m.ram.reg) && s.commands != [] && forall i :: luck(i) >= 3
    ensures RestoreRun(cfg, m, s, luck).0 == None <==> Restorable(cfg, m.ram, s)
  {
    hide Sound, Perform, Imports, Restorable, RestoredExactly, Reboot, HexOf;
    if RestoreRun(cfg, m, s, luck).0 == None {
      RestoreIsSound(cfg, m, s, luck, [0, 0, 0, 0, 0, 0, 0, 0, 0, 0, 0, 0, 0, 0, 0, 0]);
      RestoredWasRestorable(cfg, m, s, RestoreRun(cfg, m, s, luck).1);
    }
    if Restorable(cfg, m.ram, s) {
      RestoreCompletes(cfg, m, s, luck);
    }
  }

  // ---- Where the checks fall short ----------------------------------------------------------

  /**
   * The check before the first call admits a snapshot at the very ceiling of the revision domain; the
   * commit then has no revision to move to, and the target is left holding an open restore.
   */
  lemma {:induction false} CeilingRevisionLeavesRestoreOpen(cfg: Config, m: Machine, s: Snapshot, luck: nat -> nat)
    requires Sound(cfg, m.ram.reg) && s.revision == REVISION_MAX && Restorable(cfg, m.ram, s.(revision := 0))
    requires forall i :: luck(i) >= 3
    ensures CheckTarget(StatusOf(cfg, m.ram), s) == None
    ensures RestoreRun(cfg, m, s, luck).0 == Some(StillOpen)
    ensures RestoreRun(cfg, m, s, luck).1.ram.reg.restoreState == 1
  {
    hide Sound, Perform, IndexBytes, HeaderBytes, HexOf, InStep, SlotSound, Distinct;
    var base := m.ram.reg.revision;
    var id := BridgeIdOf(s.bridgeId).value;
    var s0 := s.(revision := 0);
    HexCanonical(s.bridgeId);
    RestorablePasses(cfg, m.ram, s0);
    BeginEither(cfg, m, s0, luck(0));
    var begun := BeginCall(cfg, m, s0, luck(0));
    ImportsSucceed(cfg, m.ram, begun, s0, luck, id, base, 0);
    SameImports(cfg, begun, s, s0, luck, 0);
    var filled := Imports(cfg, begun, s, luck, 0);
    CommitEither(cfg, filled, s, id, base, luck(|s.commands| + 1));
  }

  lemma {:induction false} SameImports(cfg: Config, m: Machine, s: Snapshot, s0: Snapshot, luck: nat -> nat, k: nat)
    requires s.commands == s0.commands && k <= |s.commands|
    ensures Imports(cfg, m, s, luck, k) == Imports(cfg, m, s0, luck, k)
    decreases |s.commands| - k
  {
    hide Call;
    if k < |s.commands| {
      SameImports(cfg, Call(cfg, m, Import(s.commands[k]), luck(k + 1)), s, s0, luck, k + 1);
    }
  }

  /**
   * An empty snapshot has no count to give a refusal away. When the begin call does not open a restore,
   * the run still raises nothing exactly when the target already shows the snapshot's identity and a later
   * revision; its id counter is then whatever it was.
   */
  lemma {:induction false} EmptyRestoreMayBeIgnored(cfg: Config, m: Machine, s: Snapshot, luck: nat -> nat)
    requires Sound(cfg, m.ram.reg) && s.commands == [] && CheckTarget(StatusOf(cfg, m.ram), s) == None
    requires !Opens(m.ram, s, luck(0))
    ensures RestoreRun(cfg, m, s, luck).1.ram == m.ram
    ensures RestoreRun(cfg, m, s, luck).0 == None <==>
            HexOf(m.ram.reg.bridgeId) == s.bridgeId && m.ram.reg.revision > s.revision
  {
    hide Sound, Perform, HexOf;
    BeginEither(cfg, m, s, luck(0));
    RefusedCommit(cfg, BeginCall(cfg, m, s, luck(0)), s, luck(1));
  }

  /** When a restore raises nothing, the target holds the snapshot unless it was empty and never opened. */
  lemma {:induction false} QuietRestoreIsExactIff(cfg: Config, m: Machine, s: Snapshot, luck: nat -> nat)
    requires Sound(cfg, m.ram.reg) && RestoreRun(cfg, m, s, luck).0 == None
    ensures RestoredExactly(cfg, RestoreRun(cfg, m, s, luck).1, s, m.ram.reg.revision) <==>
            s.commands != [] || Opens(m.ram, s, luck(0))
  {
    if s.commands != [] || Opens(m.ram, s, luck(0)) {
      hide *;
      RestoreIsSound(cfg, m, s, luck, m.ram.reg.bridgeId);
    } else {
      hide Sound, Opens, BeginCall, Imports, CommitCall, HexOf, InStep, Padded;
      EmptyRestoreMayBeIgnored(cfg, m, s, luck);
    }
  }

  lemma {:induction false} RefusedCommit(cfg: Config, m: Machine, s: Snapshot, landed: nat)
    requires !m.ram.readOnly && m.ram.reg.restoreState == 0
    ensures CommitCall(cfg, m, s, landed) == m
  {
    hide Call;
    if 0 <= s.revision <= REVISION_MAX {
      ClosedRefuses(cfg, m, RestoreCommit(s.revision), landed);
    }
  }
}

/**
 * The restore when the device may also lose power during any of its calls and boot before the next one:
 * RAM is then what flash described, and the checks at the two ends still have to tell.
 */
module Interrupted {
  import opened Bytes
  import opened RegistryModel
  import opened Flash
  import opened Recovery
  import opened Runs
  import opened Bridge
  import opened Restore
  import opened Layout
  import opened Durable

  // ---- The protocol -------------------------------------------------------------------------

  /** What becomes of a call: some of its saves land, and then the device goes on, or power goes and it boots. */
  datatype Fate = GoesOn(landed: nat) | Reboots(landed: nat, minted: BridgeId, bootLanded: nat)

  function Faced(op: Op, fate: Fate): Event {
    match fate
    case GoesOn(landed) => Do(op, landed)
    case Reboots(landed, minted, bootLanded) => PowerCut(op, landed, minted, bootLanded)
  }

  /** The begin call, the imports in order, the commit; a call with arguments out of domain never reaches the store. */
  function CallAt(s: Snapshot, j: nat): Option<Op>
    requires j < |s.commands| + 2
  {
    if j == 0 then
      match BridgeIdOf(s.bridgeId)
      case None => None
      case Some(id) => Some(RestoreBegin(id, s.nextId))
    else if j <= |s.commands| then Some(Import(s.commands[j - 1]))
    else if 0 <= s.revision <= REVISION_MAX then Some(RestoreCommit(s.revision))
    else None
  }

  function Sent(cfg: Config, m: Machine, call: Option<Op>, fate: Fate): Machine {
    match call
    case Some(op) => Step(cfg, m, Faced(op, fate))
    case None =>
      match fate
      case GoesOn(_) => m
      case Reboots(_, minted, bootLanded) =>
        var started := Reboot(cfg, m.records, minted, bootLanded);
        Machine(started.ram, started.records)
  }

  function DiskSent(cfg: Config, m: Machine, disk: Registry, call: Option<Op>, fate: Fate): Registry {
    if call.Some? then DiskAfter(cfg, m, disk, Faced(call.value, fate)) else disk
  }

  /** The calls from call `j` on. */
  function Calls(cfg: Config, m: Machine, s: Snapshot, fates: nat -> Fate, j: nat): Machine
    requires j <= |s.commands| + 2
    decreases |s.commands| + 2 - j
  {
    if j == |s.commands| + 2 then m else Calls(cfg, Sent(cfg, m, CallAt(s, j), fates(j)), s, fates, j + 1)
  }

  function InterruptedRun(cfg: Config, m: Machine, s: Snapshot, fates: nat -> Fate): (Option<Problem>, Machine) {
    var problem := CheckTarget(StatusOf(cfg, m.ram), s);
    if problem.Some? then (problem, m)
    else
      var m' := Calls(cfg, m, s, fates, 0);
      (CheckResult(StatusOf(cfg, m'.ram), s), m')
  }

  // ---- Without a power cut it is the restore ------------------------------------------------

  lemma {:induction false} LastCall(cfg: Config, m: Machine, s: Snapshot, fates: nat -> Fate)
    ensures var n := |s.commands|; Calls(cfg, m, s, fates, n + 1) == Sent(cfg, m, CallAt(s, n + 1), fates(n + 1))
  {
    hide Sent, CallAt;
    var m' := Sent(cfg, m, CallAt(s, |s.commands| + 1), fates(|s.commands| + 1));
    assert Calls(cfg, m', s, fates, |s.commands| + 2) == m';
  }

  lemma {:induction false} ImportsAreCalls(cfg: Config, m: Machine, s: Snapshot, fates: nat -> Fate, luck: nat -> nat,
                                           k: nat)
    requires k <= |s.commands| && forall j: nat :: k < j < |s.commands| + 2 ==> fates(j) == GoesOn(luck(j))
    ensures Calls(cfg, m, s, fates, k + 1) == CommitCall(cfg, Imports(cfg, m, s, luck, k), s, luck(|s.commands| + 1))
    decreases |s.commands| - k
  {
    hide Step;
    if k < |s.commands| {
      ImportsAreCalls(cfg, Sent(cfg, m, CallAt(s, k + 1), fates(k + 1)), s, fates, luck, k + 1);
    } else {
      LastCall(cfg, m, s, fates);
    }
  }

  /** When the device never loses power, this is the restore of a device that only refuses saves. */
  lemma {:induction false} UninterruptedIsRestore(cfg: Config, m: Machine, s: Snapshot, fates: nat -> Fate,
                                                  luck: nat -> nat)
    requires forall j: nat :: j < |s.commands| + 2 ==> fates(j) == GoesOn(luck(j))
    ensures InterruptedRun(cfg, m, s, fates) == RestoreRun(cfg, m, s, luck)
  {
    hide Step, Imports, CommitCall, CheckTarget, CheckResult, StatusOf, BridgeIdOf;
    ImportsAreCalls(cfg, Sent(cfg, m, CallAt(s, 0), fates(0)), s, fates, luck, 0);
  }

  // ---- How many commands there can be -------------------------------------------------------

  lemma {:induction false} SubCount(a: seq<Command>, b: seq<Command>, n: nat)
    requires SubSlots(a, b) && n <= |a|
    ensures Occupancy(a, n) <= Occupancy(b, n)
  {
    if n != 0 {
      SubCount(a, b, n - 1);
    }
  }

  lemma {:induction false} BootCounts(cfg: Config, records: Records, disk: Registry, minted: BridgeId, landed: nat)
    requires Sound(cfg, disk) && Described(cfg, records, disk)
    ensures var started := Reboot(cfg, records, minted, landed);
            && Count(started.ram.reg.slots) <= Count(disk.slots)
            && started.ram.reg.restoreState == disk.restoreState
            && Tracks(cfg, Machine(started.ram, started.records), disk)
  {
    hide Sound, Described, Reboot;
    RebootKeeps(cfg, records, disk, minted, landed);
    SubCount(Reboot(cfg, records, minted, landed).ram.reg.slots, disk.slots, |disk.slots|);
  }

  /** How many commands a call of the restore can add. */
  function Adds(call: Option<Op>): nat {
    if call.Some? && call.value.Import? then 1 else 0
  }

  /** A restore call adds what it adds to what RAM held, and after a boot RAM is a part of what flash describes. */
  lemma {:induction false} SentCounts(cfg: Config, m: Machine, disk: Registry, call: Option<Op>, fate: Fate)
    requires Tracks(cfg, m, disk)
    requires call.Some? ==> call.value.RestoreBegin? || call.value.Import? || call.value.RestoreCommit?
    ensures var m', disk' := Sent(cfg, m, call, fate), DiskSent(cfg, m, disk, call, fate);
            && Tracks(cfg, m', disk')
            && (disk' == disk || Count(disk'.slots) <= Count(m.ram.reg.slots) + Adds(call))
            && (fate.GoesOn? ==> Count(m'.ram.reg.slots) <= Count(m.ram.reg.slots) + Adds(call))
            && (fate.Reboots? ==> Count(m'.ram.reg.slots) <= Count(disk'.slots) &&
                                  m'.ram.reg.restoreState == disk'.restoreState)
  {
    hide Sound, Described, Attempt, PlanOf, Reboot, Occupancy;
    if call.Some? {
      var e := Faced(call.value, fate);
      StepTracks(cfg, m, disk, e);
      AttemptDescribes(cfg, m, disk, e);
      AttemptCounts(cfg, m, call.value, e);
      if fate.Reboots? {
        BootCounts(cfg, Attempt(cfg, m, e).records, DiskAfter(cfg, m, disk, e), fate.minted, fate.bootLanded);
      }
    } else if fate.Reboots? {
      BootCounts(cfg, m.records, disk, fate.minted, fate.bootLanded);
    }
  }

  lemma {:induction false} AttemptCounts(cfg: Config, m: Machine, op: Op, e: Event)
    requires Sound(cfg, m.ram.reg) && e.op == op && (op.RestoreBegin? || op.Import? || op.RestoreCommit?)
    ensures var plan, add := PlanOf(cfg, m.ram, op), if op.Import? then 1 else 0;
            && Count(Attempt(cfg, m, e).ram.reg.slots) <= Count(m.ram.reg.slots) + add
            && (plan.Write? ==> Count(plan.next.reg.slots) <= Count(m.ram.reg.slots) + add)
  {
    hide Saved, SavesOf, ValidateName, ProjectedBytes, Sound, Occupancy;
    var plan := PlanOf(cfg, m.ram, op);
    if op.Import? && plan.Write? {
      PlanKeepsSound(cfg, m.ram, op);
      ImportWrites(cfg, m.ram, op.command);
      OccupancyStore(m.ram.reg.slots, plan.payload, op.command, |m.ram.reg.slots|);
    }
  }

  // ---- The stages of a restore --------------------------------------------------------------

  /** RAM and flash both are the open restore with exactly the first `k` commands. */
  ghost predicate Whole(cfg: Config, m: Machine, disk: Registry, s: Snapshot, id: BridgeId, base: int, k: nat) {
    Taken(cfg, m, s, id, base, k) && disk == m.ram.reg && Described(cfg, m.records, disk)
  }

  /** Something is missing, and nothing to come makes up for it. */
  ghost predicate Behind(cfg: Config, m: Machine, disk: Registry, k: nat) {
    && Tracks(cfg, m, disk)
    && Count(m.ram.reg.slots) < k
    && (Count(disk.slots) < k || (Count(disk.slots) == k && disk.restoreState != 0))
  }

  /** Nothing has been taken and RAM is not open. */
  ghost predicate Unopened(cfg: Config, m: Machine, disk: Registry) {
    Tracks(cfg, m, disk) && Count(m.ram.reg.slots) == 0 == Count(disk.slots) && m.ram.reg.restoreState == 0
  }

  ghost predicate Stage(cfg: Config, m: Machine, disk: Registry, s: Snapshot, id: Option<BridgeId>, base: int, k: nat) {
    || (id.Some? && Whole(cfg, m, disk, s, id.value, base, k))
    || Behind(cfg, m, disk, k)
    || (k == 0 && Unopened(cfg, m, disk))
  }

  lemma {:induction false} WholeTracks(cfg: Config, m: Machine, disk: Registry, s: Snapshot, id: BridgeId, base: int,
                                       k: nat)
    requires Whole(cfg, m, disk, s, id, base, k)
    ensures Tracks(cfg, m, disk) && Count(m.ram.reg.slots) == k && Count(disk.slots) == k && disk.restoreState == 1
    ensures InStep(cfg, m.records, disk)
  {
    hide Sound, Described, Padded, Occupancy;
    TakenCount(cfg, m, s, id, base, k);
    forall i | 0 <= i < |disk.slots| && disk.slots[i].Occupied()
      ensures WaveformStored(m.records, i, disk.slots[i])
    {
    }
  }

  /** Cut after its index has landed, a write over a registry flash is in step with is found by the boot. */
  lemma {:induction false} BootsIntoNext(cfg: Config, m: Machine, op: Op, fate: Fate)
    requires Sound(cfg, m.ram.reg) && InStep(cfg, m.records, m.ram.reg) && fate.Reboots?
    requires PlanOf(cfg, m.ram, op).Write? && CommitPoint(PlanOf(cfg, m.ram, op)) <= fate.landed
    ensures var m', next := Step(cfg, m, Faced(op, fate)), PlanOf(cfg, m.ram, op).next.reg;
            m'.ram == Ram(next, false, NoFault) && InStep(cfg, m'.records, next) && Sound(cfg, next)
  {
    hide PlanOf, CutRecords, Sound, WaveformStored, HeaderBytes, IndexBytes, SavesOf, Saved, Reboot;
    var next := PlanOf(cfg, m.ram, op).next.reg;
    CommittedInStep(cfg, m.ram, m.records, op, fate.landed);
    PlanKeepsSound(cfg, m.ram, op);
    AttemptIsCut(cfg, m, Faced(op, fate));
    RoundTrip(cfg, CutRecords(cfg, m.ram, m.records, op, fate.landed), next, fate.minted, fate.bootLanded);
  }

  // ---- Begin --------------------------------------------------------------------------------

  /** Whether the begin call is accepted and its index lands, and the device is then open under it. */
  predicate Began(ram: Ram, s: Snapshot, fate: Fate) {
    && BridgeIdOf(s.bridgeId).Some? && s.nextId >= 1 && ram.reg.revision < REVISION_MAX
    && fate.landed >= (if fate.Reboots? then 1 else 2)
  }

  /** Nothing is open or held, in RAM or on flash. */
  ghost predicate Fresh(cfg: Config, m: Machine, disk: Registry) {
    && Tracks(cfg, m, disk) && Count(disk.slots) == 0 && disk.restoreState == 0
  }

  lemma {:induction false} BeginStage(cfg: Config, m: Machine, disk: Registry, s: Snapshot, fate: Fate)
    requires Fresh(cfg, m, disk) && CheckTarget(StatusOf(cfg, m.ram), s).None?
    ensures var m', disk' := Sent(cfg, m, CallAt(s, 0), fate), DiskSent(cfg, m, disk, CallAt(s, 0), fate);
            var id := BridgeIdOf(s.bridgeId);
            if Began(m.ram, s, fate) then Whole(cfg, m', disk', s, id.value, m.ram.reg.revision, 0)
            else Unopened(cfg, m', disk')
  {
    hide BridgeIdOf, CheckTarget, StatusOf, Whole, Unopened, Sent, DiskSent;
    if Began(m.ram, s, fate) && fate.Reboots? {
      BeginBooted(cfg, m, disk, s, fate);
    } else if Began(m.ram, s, fate) {
      BeginWent(cfg, m, disk, s, fate);
    } else {
      BeginFailed(cfg, m, disk, s, fate);
    }
  }

  lemma {:induction false} BeginWent(cfg: Config, m: Machine, disk: Registry, s: Snapshot, fate: Fate)
    requires Tracks(cfg, m, disk) && CheckTarget(StatusOf(cfg, m.ram), s).None?
    requires fate.GoesOn? && Began(m.ram, s, fate)
    ensures var call := CallAt(s, 0);
            Whole(cfg, Sent(cfg, m, call, fate), DiskSent(cfg, m, disk, call, fate), s, BridgeIdOf(s.bridgeId).value,
                  m.ram.reg.revision, 0)
  {
    hide BridgeIdOf, Sound, Described, PlanOf, CheckTarget, StatusOf, Taken, Saved, SavesOf;
    var op := RestoreBegin(BridgeIdOf(s.bridgeId).value, s.nextId);
    BeginWrites(cfg, m.ram, s);
    BeginEither(cfg, m, s, fate.landed);
    GoesIntoNext(cfg, m, op, fate);
    StepTracks(cfg, m, disk, Faced(op, fate));
  }

  /** A begin call that does not open RAM leaves nothing held. */
  lemma {:induction false} BeginFailed(cfg: Config, m: Machine, disk: Registry, s: Snapshot, fate: Fate)
    requires Fresh(cfg, m, disk) && CheckTarget(StatusOf(cfg, m.ram), s).None? && !Began(m.ram, s, fate)
    ensures var call := CallAt(s, 0);
            Unopened(cfg, Sent(cfg, m, call, fate), DiskSent(cfg, m, disk, call, fate))
  {
    hide BridgeIdOf, HexOf, Sound, Described, PlanOf, Saved, SavesOf, Occupancy, Reboot;
    SentCounts(cfg, m, disk, CallAt(s, 0), fate);
    if BridgeIdOf(s.bridgeId).Some? {
      var op := RestoreBegin(BridgeIdOf(s.bridgeId).value, s.nextId);
      BeginWrites(cfg, m.ram, s);
      if PlanOf(cfg, m.ram, op).Write? {
        SaveCount(cfg, m.ram, op);
      }
    }
  }

  lemma {:induction false} BeginWrites(cfg: Config, ram: Ram, s: Snapshot)
    requires Sound(cfg, ram.reg) && CheckTarget(StatusOf(cfg, ram), s).None? && BridgeIdOf(s.bridgeId).Some?
    ensures var id := BridgeIdOf(s.bridgeId).value;
            var plan := PlanOf(cfg, ram, RestoreBegin(id, s.nextId));
            && !ram.readOnly && ram.reg.restoreState == 0 && Count(ram.reg.slots) == 0
            && (plan.Write? <==> s.nextId >= 1 && ram.reg.revision < REVISION_MAX)
            && (plan.Write? ==>
                  && plan.payload < 0 && CommitPoint(plan) == 1
                  && plan.undo == ram && plan.next.reg.restoreState == 1)
  {
    hide BridgeIdOf, HexOf, Occupancy;
  }

  /** Cut once its index has landed, the begin call is found by the boot: there is no waveform to miss. */
  lemma {:induction false} BeginBooted(cfg: Config, m: Machine, disk: Registry, s: Snapshot, fate: Fate)
    requires Tracks(cfg, m, disk) && CheckTarget(StatusOf(cfg, m.ram), s).None?
    requires fate.Reboots? && Began(m.ram, s, fate)
    ensures var call := CallAt(s, 0);
            Whole(cfg, Sent(cfg, m, call, fate), DiskSent(cfg, m, disk, call, fate), s, BridgeIdOf(s.bridgeId).value,
                  m.ram.reg.revision, 0)
  {
    hide BridgeIdOf, HexOf, Sound, Described, Attempt, Padded, Occupancy, Reboot, PlanOf, CheckTarget, StatusOf;
    var op := RestoreBegin(BridgeIdOf(s.bridgeId).value, s.nextId);
    var e := Faced(op, fate);
    BeginWrites(cfg, m.ram, s);
    BeginNext(cfg, m.ram, s);
    var next, after := PlanOf(cfg, m.ram, op).next.reg, Attempt(cfg, m, e).records;
    AttemptDescribes(cfg, m, disk, e);
    EmptyIsPadded(cfg, next, s.commands);
    NothingStored(cfg, after, next, s);
    RoundTrip(cfg, after, next, fate.minted, fate.bootLanded);
  }

  lemma {:induction false} NothingStored(cfg: Config, records: Records, reg: Registry, s: Snapshot)
    requires Described(cfg, records, reg) && reg.slots == Padded(cfg, s.commands[..0])
    ensures InStep(cfg, records, reg)
  {
    hide Described, WaveformStored;
  }

  lemma {:induction false} BeginNext(cfg: Config, ram: Ram, s: Snapshot)
    requires Sound(cfg, ram.reg) && CheckTarget(StatusOf(cfg, ram), s).None? && BridgeIdOf(s.bridgeId).Some?
    requires s.nextId >= 1 && ram.reg.revision < REVISION_MAX
    ensures var id := BridgeIdOf(s.bridgeId).value;
            var next := PlanOf(cfg, ram, RestoreBegin(id, s.nextId)).next.reg;
            && next == ram.reg.(bridgeId := id, nextId := s.nextId, restoreState := 1,
                                revision := ram.reg.revision as int + 1)
            && Sound(cfg, next)
  {
    hide BridgeIdOf, HexOf, Occupancy, Sound;
    PlanKeepsSound(cfg, ram, RestoreBegin(BridgeIdOf(s.bridgeId).value, s.nextId));
  }

  // ---- Imports ------------------------------------------------------------------------------

  lemma {:induction false} ImportStage(cfg: Config, m: Machine, disk: Registry, s: Snapshot, id: Option<BridgeId>,
                                       base: int, k: nat, fate: Fate)
    requires Stage(cfg, m, disk, s, id, base, k) && k < |s.commands|
    ensures var call := CallAt(s, k + 1);
            Stage(cfg, Sent(cfg, m, call, fate), DiskSent(cfg, m, disk, call, fate), s, id, base, k + 1)
  {
    hide Taken, Sound, Described, Attempt, PlanOf, Occupancy, Reboot, BridgeIdOf, InStep;
    var call := CallAt(s, k + 1);
    assert call == Some(Import(s.commands[k]));
    if id.Some? && Whole(cfg, m, disk, s, id.value, base, k) {
      WholeTracks(cfg, m, disk, s, id.value, base, k);
      SentCounts(cfg, m, disk, call, fate);
      WholeImport(cfg, m, disk, s, id.value, base, k, fate);
    } else {
      SentCounts(cfg, m, disk, call, fate);
      if !Behind(cfg, m, disk, k) {
        NotOpen(cfg, m, disk, s.commands[k], fate);
      }
    }
  }

  lemma {:induction false} NotOpen(cfg: Config, m: Machine, disk: Registry, c: Command, fate: Fate)
    requires m.ram.reg.restoreState == 0
    ensures DiskAfter(cfg, m, disk, Faced(Import(c), fate)) == disk
    ensures fate.GoesOn? ==> Step(cfg, m, Faced(Import(c), fate)) == m
  {
    hide ValidateName, First, ProjectedBytes;
  }

  lemma {:induction false} WholeImport(cfg: Config, m: Machine, disk: Registry, s: Snapshot, id: BridgeId, base: int,
                                       k: nat, fate: Fate)
    requires Whole(cfg, m, disk, s, id, base, k) && k < |s.commands|
    ensures var op := Import(s.commands[k]);
            var e := Faced(op, fate);
            var m', disk', plan := Step(cfg, m, e), DiskAfter(cfg, m, disk, e), PlanOf(cfg, m.ram, op);
            if plan.Write? && fate.landed >= (if fate.GoesOn? then 3 else 2) then
              Whole(cfg, m', disk', s, id, base, k + 1)
            else
              && (disk' == disk || (disk'.restoreState != 0 && Count(disk'.slots) <= k + 1))
              && (fate.GoesOn? ==> m'.ram == m.ram)
              && (fate.Reboots? ==> disk' == disk)
  {
    hide Sound, Described, Attempt, PlanOf, ImportPlan, Occupancy, Reboot, Padded, InStep, WaveformStored, Taken, Step;
    var c := s.commands[k];
    var op := Import(c);
    ImportIs(cfg, m.ram, c);
    var e, plan := Faced(op, fate), PlanOf(cfg, m.ram, op);
    WholeTracks(cfg, m, disk, s, id, base, k);
    StepTracks(cfg, m, disk, e);
    AttemptCounts(cfg, m, op, e);
    if plan.Write? {
      SaveCount(cfg, m.ram, op);
      ImportWrites(cfg, m.ram, c);
      FirstFreePadded(cfg, m, s, id, base, k);
    }
    if fate.GoesOn? {
      ImportCall(cfg, m, s, id, base, k, fate.landed);
      if plan.Write? && fate.landed >= 3 {
        GoesIntoNext(cfg, m, op, fate);
      }
    } else if plan.Write? && fate.landed >= 2 {
      BootsIntoNext(cfg, m, op, fate);
      TakesNext(cfg, m, s, id, base, k, Step(cfg, m, e));
    }
  }

  lemma {:induction false} ImportIs(cfg: Config, ram: Ram, c: Command)
    ensures PlanOf(cfg, ram, Import(c)) == ImportPlan(cfg, ram, c)
  {
    hide ImportPlan;
  }

  lemma {:induction false} FirstFreePadded(cfg: Config, m: Machine, s: Snapshot, id: BridgeId, base: int, k: nat)
    requires Taken(cfg, m, s, id, base, k)
    ensures var slots := m.ram.reg.slots; First(slots, AnyFree) == if k < |slots| then k else -1
  {
    hide Sound;
    FirstFree(m.ram.reg.slots, k);
  }

  lemma {:induction false} GoesIntoNext(cfg: Config, m: Machine, op: Op, fate: Fate)
    requires Sound(cfg, m.ram.reg) && PlanOf(cfg, m.ram, op).Write?
    requires fate.GoesOn? && fate.landed > CommitPoint(PlanOf(cfg, m.ram, op))
    ensures Step(cfg, m, Faced(op, fate)).ram == PlanOf(cfg, m.ram, op).next
  {
    hide PlanOf, Saved, SavesOf, Sound, CommitPoint;
    SaveCount(cfg, m.ram, op);
  }

  lemma {:induction false} TakesNext(cfg: Config, m: Machine, s: Snapshot, id: BridgeId, base: int, k: nat, m': Machine)
    requires Taken(cfg, m, s, id, base, k) && k < |s.commands| && ImportPlan(cfg, m.ram, s.commands[k]).Write?
    requires var next := ImportPlan(cfg, m.ram, s.commands[k]).next.reg;
             m'.ram == Ram(next, false, NoFault) && InStep(cfg, m'.records, next) && Sound(cfg, next)
    ensures Taken(cfg, m', s, id, base, k + 1)
  {
    hide Sound, ImportPlan, Described, WaveformStored;
    FirstFree(m.ram.reg.slots, k);
    ImportWrites(cfg, m.ram, s.commands[k]);
    assert m'.ram.reg.slots == Padded(cfg, s.commands[..k + 1]);
  }

  lemma {:induction false} ImportStages(cfg: Config, m: Machine, disk: Registry, s: Snapshot, id: Option<BridgeId>,
                                        base: int, fates: nat -> Fate, k: nat)
    returns (filled: Machine, disk': Registry)
    requires k <= |s.commands| && Stage(cfg, m, disk, s, id, base, k)
    ensures Stage(cfg, filled, disk', s, id, base, |s.commands|)
    ensures Calls(cfg, m, s, fates, k + 1) == Calls(cfg, filled, s, fates, |s.commands| + 1)
    ensures k == |s.commands| ==> filled == m && disk' == disk
    decreases |s.commands| - k
  {
    hide Stage, Sent, DiskSent, CallAt;
    if k == |s.commands| {
      filled, disk' := m, disk;
    } else {
      var call, fate := CallAt(s, k + 1), fates(k + 1);
      ImportStage(cfg, m, disk, s, id, base, k, fate);
      filled, disk' := ImportStages(cfg, Sent(cfg, m, call, fate), DiskSent(cfg, m, disk, call, fate), s, id, base,
                                    fates, k + 1);
    }
  }

  // ---- Commit -------------------------------------------------------------------------------

  lemma {:induction false} CommitFinishes(cfg: Config, m: Machine, disk: Registry, s: Snapshot, id: BridgeId, base: int,
                                          fate: Fate)
    requires Whole(cfg, m, disk, s, id, base, |s.commands|) && 0 <= s.revision <= REVISION_MAX
    requires CheckResult(StatusOf(cfg, Sent(cfg, m, CallAt(s, |s.commands| + 1), fate).ram), s).None?
    ensures RestoredExactly(cfg, Sent(cfg, m, CallAt(s, |s.commands| + 1), fate), s, base)
  {
    hide Sound, Described, PlanOf, Reboot, InStep, HexOf, Step, Taken, StatusOf, RestoredExactly;
    var op := RestoreCommit(s.revision);
    WholeIs(cfg, m, s, id, base);
    ShownBy(cfg, Step(cfg, m, Faced(op, fate)).ram, s);
    if fate.GoesOn? {
      CommitEither(cfg, m, s, id, base, fate.landed);
      assert CommitCall(cfg, m, s, fate.landed) == Step(cfg, m, Faced(op, fate));
      CommitKeepsSlots(cfg, m, s, fate.landed);
    } else {
      CommitBooted(cfg, m, disk, s, id, base, fate);
    }
  }

  lemma {:induction false} ShownBy(cfg: Config, ram: Ram, s: Snapshot)
    requires CheckResult(StatusOf(cfg, ram), s).None?
    ensures HexOf(ram.reg.bridgeId) == s.bridgeId && ram.reg.restoreState == 0
  {
    hide HexOf;
  }

  lemma {:induction false} CommitBooted(cfg: Config, m: Machine, disk: Registry, s: Snapshot, id: BridgeId, base: int,
                                        fate: Fate)
    requires Whole(cfg, m, disk, s, id, base, |s.commands|) && 0 <= s.revision <= REVISION_MAX && fate.Reboots?
    requires var ram := Step(cfg, m, Faced(RestoreCommit(s.revision), fate)).ram;
             HexOf(ram.reg.bridgeId) == s.bridgeId && ram.reg.restoreState == 0
    ensures RestoredExactly(cfg, Step(cfg, m, Faced(RestoreCommit(s.revision), fate)), s, base)
  {
    hide Sound, Described, PlanOf, Reboot, InStep, HexOf, Step, Taken;
    var op := RestoreCommit(s.revision);
    WholeIs(cfg, m, s, id, base);
    WholeTracks(cfg, m, disk, s, id, base, |s.commands|);
    SentCounts(cfg, m, disk, Some(op), fate);
    CommitWrites(cfg, m.ram, s.revision);
    assert PlanOf(cfg, m.ram, op).Write? && fate.landed >= 1;
    BootsIntoNext(cfg, m, op, fate);
  }

  lemma {:induction false} WholeIs(cfg: Config, m: Machine, s: Snapshot, id: BridgeId, base: int)
    requires Taken(cfg, m, s, id, base, |s.commands|)
    ensures |s.commands| <= cfg.maxCommands && m.ram.reg.bridgeId == id && m.ram.reg.nextId == s.nextId
    ensures m.ram.reg.restoreState == 1 && m.ram.reg.revision == base + 1 + |s.commands|
    ensures m.ram.reg.slots == Padded(cfg, s.commands) && Sound(cfg, m.ram.reg) && !m.ram.readOnly
  {
    hide Sound;
    assert s.commands[..|s.commands|] == s.commands;
  }

  lemma {:induction false} CommitWrites(cfg: Config, ram: Ram, source: u32)
    ensures var plan, reg := PlanOf(cfg, ram, RestoreCommit(source)), ram.reg;
            plan.Write? ==>
              && plan.payload < 0 && CommitPoint(plan) == 1
              && plan.next.reg == reg.(restoreState := 0, revision := Max(source, reg.revision) as int + 1)
  {
  }

  /** A restore that fell behind shows it: a command is missing, or the boot finds it still open. */
  lemma {:induction false} BehindShows(cfg: Config, m: Machine, disk: Registry, s: Snapshot, fate: Fate)
    requires Behind(cfg, m, disk, |s.commands|) && 0 <= s.revision <= REVISION_MAX
    ensures CheckResult(StatusOf(cfg, Sent(cfg, m, CallAt(s, |s.commands| + 1), fate).ram), s).Some?
  {
    hide Sound, Described, HexOf, Step, Occupancy, DiskAfter;
    SentCounts(cfg, m, disk, CallAt(s, |s.commands| + 1), fate);
  }

  // ---- Soundness ----------------------------------------------------------------------------

  /**
   * Whatever becomes of each call, saves refused or power lost and the device booted before the next one, a
   * restore that raises nothing has written exactly its snapshot, to RAM and to flash. Asked of the target
   * beyond the checks: flash too is closed and empty, as it is when the device has booted since it was written.
   */
  lemma {:induction false} RestoreSurvivesPowerCuts(cfg: Config, m: Machine, disk: Registry, s: Snapshot,
                                                    fates: nat -> Fate)
    requires Fresh(cfg, m, disk) && (s.commands != [] || Began(m.ram, s, fates(0)))
    requires InterruptedRun(cfg, m, s, fates).0 == None
    ensures RestoredExactly(cfg, InterruptedRun(cfg, m, s, fates).1, s, m.ram.reg.revision)
  {
    hide Sent, DiskSent, CallAt, Fresh, StatusOf, CheckResult, RestoredExactly, BridgeIdOf, Whole, Behind, Unopened;
    var id, base, n := BridgeIdOf(s.bridgeId), m.ram.reg.revision, |s.commands|;
    var begun, disk' := Sent(cfg, m, CallAt(s, 0), fates(0)), DiskSent(cfg, m, disk, CallAt(s, 0), fates(0));
    BeginStage(cfg, m, disk, s, fates(0));
    var filled, disk'' := ImportStages(cfg, begun, disk', s, id, base, fates, 0);
    LastCall(cfg, filled, s, fates);
    if Behind(cfg, filled, disk'', n) {
      BehindShows(cfg, filled, disk'', s, fates(n + 1));
    } else {
      CommitFinishes(cfg, filled, disk'', s, id.value, base, fates(n + 1));
    }
  }

  // ---- What is asked of flash ---------------------------------------------------------------

  /** A target that has booted since its flash was written, and passes the check, is closed and empty on flash too. */
  lemma {:induction false} BootedTargetIsFresh(cfg: Config, records: Records, disk: Registry, minted: BridgeId,
                                               landed: nat, s: Snapshot)
    requires Sound(cfg, disk) && Described(cfg, records, disk)
    requires CheckTarget(StatusOf(cfg, Reboot(cfg, records, minted, landed).ram), s).None?
    ensures var started := Reboot(cfg, records, minted, landed);
            Fresh(cfg, Machine(started.ram, started.records), disk)
  {
    hide Sound, Described, Reboot, HexOf, Occupancy;
    var ram := Reboot(cfg, records, minted, landed).ram;
    BootCounts(cfg, records, disk, minted, landed);
    WritableBootIsWhole(cfg, records, disk, minted, landed);
    OccupancyZero(ram.reg.slots, |ram.reg.slots|);
    NothingHeld(ram.reg, disk);
  }

  lemma {:induction false} OccupiedIsHeld(reg: Registry)
    ensures forall i :: 0 <= i < |reg.slots| && reg.slots[i].Occupied() ==> reg.slots[i].id in Held(reg)
  {
  }

  lemma {:induction false} NothingHeld(a: Registry, b: Registry)
    requires Held(a) == Held(b) && forall i :: 0 <= i < |a.slots| ==> !a.slots[i].Occupied()
    ensures Count(b.slots) == 0
  {
    assert Held(a) == {};
    OccupiedIsHeld(b);
    OccupancyTail(b.slots, 0, |b.slots|);
  }

  /**
   * Without that it fails. An earlier begin call for the same bridge, refused after its index had landed,
   * leaves RAM closed and empty and flash open under another id counter. The check admits the target; cut
   * power in the begin call, and the restore goes into what the boot found: it raises nothing, and new
   * commands are numbered from the wrong counter.
   */
  lemma {:induction false} LeftoverBeginFoolsTheRestore(cfg: Config, m: Machine, s: Snapshot, other: u32,
                                                        minted: BridgeId)
    requires Sound(cfg, m.ram.reg) && InStep(cfg, m.records, m.ram.reg)
    requires Restorable(cfg, m.ram, s) && Restorable(cfg, m.ram, s.(nextId := other)) && other != s.nextId
    ensures var left := Step(cfg, m, Do(RestoreBegin(BridgeIdOf(s.bridgeId).value, other), 1));
            var fates := (j: nat) => if j == 0 then Reboots(0, minted, 0) else GoesOn(3);
            && left.ram == m.ram
            && InterruptedRun(cfg, left, s, fates).0 == None
            && InterruptedRun(cfg, left, s, fates).1.ram.reg.nextId == other
  {
    hide Sound, InStep, Step, BridgeIdOf, Taken, HexOf, Occupancy, SlotSound, Distinct, Imports;
    var s', id, luck := s.(nextId := other), BridgeIdOf(s.bridgeId).value, (j: nat) => 3;
    var fates := (j: nat) => if j == 0 then Reboots(0, minted, 0) else GoesOn(3);
    var left := Step(cfg, m, Do(RestoreBegin(id, other), 1));
    RestorablePasses(cfg, m.ram, s);
    LeftOpen(cfg, m, s, other, minted);
    var m1 := Sent(cfg, left, CallAt(s, 0), fates(0));
    ImportsAreCalls(cfg, m1, s, fates, luck, 0);
    SameImports(cfg, m1, s, s', luck, 0);
    TakenOn(cfg, m.ram, m1, s', luck, id);
  }

  lemma {:induction false} LeftOpen(cfg: Config, m: Machine, s: Snapshot, other: u32, minted: BridgeId)
    requires Sound(cfg, m.ram.reg) && InStep(cfg, m.records, m.ram.reg)
    requires Restorable(cfg, m.ram, s) && Restorable(cfg, m.ram, s.(nextId := other))
    ensures var id := BridgeIdOf(s.bridgeId).value;
            var left := Step(cfg, m, Do(RestoreBegin(id, other), 1));
            && left.ram == m.ram
            && Taken(cfg, Sent(cfg, left, CallAt(s, 0), Reboots(0, minted, 0)), s.(nextId := other), id,
                     m.ram.reg.revision, 0)
  {
    hide Sound, WaveformStored, BridgeIdOf, Taken, HexOf, SlotSound, Distinct, Reboot, PlanOf, Saved, SavesOf;
    var s', id := s.(nextId := other), BridgeIdOf(s.bridgeId).value;
    var op := RestoreBegin(id, other);
    var left := Step(cfg, m, Do(op, 1));
    RestorablePasses(cfg, m.ram, s');
    BeginWrites(cfg, m.ram, s');
    SaveCount(cfg, m.ram, op);
    AttemptIsCut(cfg, m, Do(op, 1));
    AttemptIsCut(cfg, m, PowerCut(op, 1, minted, 0));
    BeginBooted(cfg, m, m.ram.reg, s', Reboots(1, minted, 0));
    NothingLands(cfg, left, RestoreBegin(id, s.nextId));
  }

  lemma {:induction false} NothingLands(cfg: Config, m: Machine, op: Op)
    ensures Perform(cfg, m.ram, m.records, op, 0).records == m.records
  {
    hide PlanOf;
  }

  lemma {:induction false} TakenOn(cfg: Config, ram: Ram, m: Machine, s: Snapshot, luck: nat -> nat, id: BridgeId)
    requires Restorable(cfg, ram, s) && BridgeIdOf(s.bridgeId) == Some(id)
    requires Taken(cfg, m, s, id, ram.reg.revision, 0) && forall i :: luck(i) >= 3
    ensures var m' := CommitCall(cfg, Imports(cfg, m, s, luck, 0), s, luck(|s.commands| + 1));
            CheckResult(StatusOf(cfg, m'.ram), s) == None && m'.ram.reg.nextId == s.nextId
  {
    hide Sound, InStep, Taken, HexOf, RestoredExactly, StatusOf, CheckResult, SlotSound, Distinct, Call, BridgeIdOf;
    ImportsSucceed(cfg, ram, m, s, luck, id, ram.reg.revision, 0);
    var filled := Imports(cfg, m, s, luck, 0);
    CommitEither(cfg, filled, s, id, ram.reg.revision, luck(|s.commands| + 1));
    ShownAsGiven(s.bridgeId, id);
    RestoredShows(cfg, ram, CommitCall(cfg, filled, s, luck(|s.commands| + 1)), s, ram.reg.revision);
  }

  lemma {:induction false} ShownAsGiven(text: string, id: BridgeId)
    requires |text| == 32 && BridgeIdOf(text) == Some(id) && Lower(text) == text
    ensures HexOf(id) == text
  {
    HexCanonical(text);
  }

  lemma {:induction false} RestoredShows(cfg: Config, ram: Ram, m: Machine, s: Snapshot, base: int)
    requires Restorable(cfg, ram, s) && RestoredExactly(cfg, m, s, base)
    ensures CheckResult(StatusOf(cfg, m.ram), s) == None && m.ram.reg.nextId == s.nextId
  {
    hide Sound, InStep, HexOf, SlotSound, Distinct, Padded, Occupancy;
    CountPadded(cfg, s, m.ram.reg.slots);
  }
}

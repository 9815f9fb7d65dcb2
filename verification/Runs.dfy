/**
 * Whole runs of a device: operations that complete, operations some of whose saves are refused and
 * after which the device keeps going, and power cuts at any save followed by a reboot.
 */
module Runs {
  import opened Bytes
  import opened RegistryModel
  import opened Refinement
  import opened Layout
  import opened Flash
  import opened Recovery

  datatype Machine = Machine(ram: Ram, records: Records)

  datatype Event =
    | Do(op: Op, landed: nat)
    | PowerCut(op: Op, landed: nat, minted: BridgeId, bootLanded: nat)

  function Attempt(cfg: Config, m: Machine, e: Event): Outcome {
    Perform(cfg, m.ram, m.records, e.op, e.landed)
  }

  function Step(cfg: Config, m: Machine, e: Event): Machine {
    var outcome := Attempt(cfg, m, e);
    match e
    case Do(_, _) => Machine(outcome.ram, outcome.records)
    case PowerCut(_, _, minted, bootLanded) =>
      var started := Reboot(cfg, outcome.records, minted, bootLanded);
      Machine(started.ram, started.records)
  }

  function After(cfg: Config, m: Machine, events: seq<Event>): Machine
    decreases |events|
  {
    if events == [] then m else After(cfg, Step(cfg, m, events[0]), events[1..])
  }

  function Held(reg: Registry): set<u32> {
    set i | 0 <= i < |reg.slots| && reg.slots[i].Occupied() :: reg.slots[i].id
  }

  // ---- What every run keeps, whatever fails -------------------------------------------------

  /** Slot by slot, `a` is `b` with some commands lost or carrying another waveform of equal length. */
  ghost predicate SubSlots(a: seq<Command>, b: seq<Command>) {
    && |a| == |b|
    && forall i :: 0 <= i < |a| ==>
         || a[i] == FREE
         || (b[i].Occupied() && a[i] == b[i].(timings := a[i].timings) && |a[i].timings| == |b[i].timings|)
  }

  /**
   * RAM is sound, and flash describes a sound registry `disk`: the last one whose index landed. They
   * need not agree, because a refused save rolls RAM back but not flash.
   */
  ghost predicate Tracks(cfg: Config, m: Machine, disk: Registry) {
    && Sound(cfg, m.ram.reg) && Sound(cfg, disk)
    && Described(cfg, m.records, disk)
    && m.ram.reg.revision <= disk.revision
  }

  lemma {:induction false} SubPayload(a: seq<Command>, b: seq<Command>, n: nat)
    requires SubSlots(a, b) && n <= |a|
    ensures PayloadBytes(a, -1, n) <= PayloadBytes(b, -1, n)
  {
    if n != 0 {
      SubPayload(a, b, n - 1);
    }
  }

  lemma {:induction false} SubSound(cfg: Config, a: seq<Command>, reg: Registry)
    requires Sound(cfg, reg) && SubSlots(a, reg.slots)
    ensures Sound(cfg, reg.(slots := a))
    ensures Held(reg.(slots := a)) <= Held(reg)
  {
    SubPayload(a, reg.slots, |a|);
    forall i | 0 <= i < |a|
      ensures SlotSound(cfg, reg.nextId, a[i])
    {
      assert SlotSound(cfg, reg.nextId, reg.slots[i]);
    }
  }

  lemma {:induction false} LoadedRow(cfg: Config, records: Records, i: nat, row: Row, c: Command)
    requires RowMatches(row, c) && (c.Occupied() ==> |c.timings| < 0x1_0000)
    ensures var fate := FateOf(cfg, records, i, row);
            fate.Loaded? ==> c.Occupied() && fate.command == c.(timings := fate.command.timings) &&
                             |fate.command.timings| == |c.timings|
  {
    hide TimingsCrc, TimingsOf;
  }

  /** Any boot over a described registry brings back its metadata and a part of its commands. */
  lemma {:induction false} RebootKeeps(cfg: Config, records: Records, disk: Registry, minted: BridgeId, landed: nat)
    requires Sound(cfg, disk) && Described(cfg, records, disk)
    ensures var started := Reboot(cfg, records, minted, landed);
            && started.records == records
            && SubSlots(started.ram.reg.slots, disk.slots)
            && started.ram.reg == disk.(slots := started.ram.reg.slots)
            && Sound(cfg, started.ram.reg) && Held(started.ram.reg) <= Held(disk)
  {
    hide IndexBytes, HeaderBytes, Begin, FateOf, TallyOf;
    SoundIsStorable(cfg, disk);
    var rows := DescribedBoot(cfg, records, disk, Blank(cfg), minted, landed);
    var slots := Filled(Fates(cfg, records, rows), EmptySlots(cfg));
    forall i | 0 <= i < |slots|
      ensures slots[i] == FREE || (disk.slots[i].Occupied() && slots[i] == disk.slots[i].(timings := slots[i].timings)
                                   && |slots[i].timings| == |disk.slots[i].timings|)
    {
      assert SlotSound(cfg, disk.nextId, disk.slots[i]);
      LoadedRow(cfg, records, i, rows[i], disk.slots[i]);
    }
    SubSound(cfg, slots, disk);
  }

  /** What flash describes after an attempt: the new registry once its index has landed. */
  function DiskAfter(cfg: Config, m: Machine, disk: Registry, e: Event): Registry {
    var plan := PlanOf(cfg, m.ram, e.op);
    if plan.Write? && CommitPoint(plan) <= e.landed then plan.next.reg else disk
  }

  lemma {:induction false} AttemptDescribes(cfg: Config, m: Machine, disk: Registry, e: Event)
    requires Tracks(cfg, m, disk)
    ensures Described(cfg, Attempt(cfg, m, e).records, DiskAfter(cfg, m, disk, e))
    ensures Sound(cfg, DiskAfter(cfg, m, disk, e)) && Sound(cfg, Attempt(cfg, m, e).ram.reg)
  {
    hide IndexBytes, HeaderBytes, TimingBytes, Sound;
    var plan := PlanOf(cfg, m.ram, e.op);
    if plan.Write? {
      PlanKeepsSound(cfg, m.ram, e.op);
      CutRecordsAre(cfg, m.ram, m.records, e.op, e.landed);
      assert Attempt(cfg, m, e).records == CutRecords(cfg, m.ram, m.records, e.op, e.landed);
    }
  }

  lemma {:induction false} RevisionRises(cfg: Config, m: Machine, op: Op)
    requires Sound(cfg, m.ram.reg) && PlanOf(cfg, m.ram, op).Write? && !op.FactoryReset?
    ensures var plan := PlanOf(cfg, m.ram, op);
            && m.ram.reg.revision < plan.next.reg.revision <= REVISION_MAX
            && (!op.RestoreCommit? ==> plan.next.reg.revision == m.ram.reg.revision + 1)
            && (op.RestoreCommit? ==> plan.next.reg.revision == Max(op.sourceRevision, m.ram.reg.revision) + 1)
  {
    hide Sound, ValidateName, First, ProjectedBytes;
  }

  lemma {:induction false} StepTracks(cfg: Config, m: Machine, disk: Registry, e: Event)
    requires Tracks(cfg, m, disk)
    ensures Tracks(cfg, Step(cfg, m, e), DiskAfter(cfg, m, disk, e))
    ensures e.PowerCut? ==> var reg := Step(cfg, m, e).ram.reg;
              reg == DiskAfter(cfg, m, disk, e).(slots := reg.slots) && Held(reg) <= Held(DiskAfter(cfg, m, disk, e))
  {
    hide Described, Reboot, Sound, CommitPoint, SavesOf;
    AttemptDescribes(cfg, m, disk, e);
    var plan := PlanOf(cfg, m.ram, e.op);
    if plan.Write? && !e.op.FactoryReset? {
      RevisionRises(cfg, m, e.op);
    }
    if plan.Write? {
      PlanKeepsSound(cfg, m.ram, e.op);
      SaveCount(cfg, m.ram, e.op);
    }
    if e.op.FactoryReset? {
      SoundRevision(cfg, disk);
    }
    if e.PowerCut? {
      RebootKeeps(cfg, Attempt(cfg, m, e).records, DiskAfter(cfg, m, disk, e), e.minted, e.bootLanded);
    }
  }

  lemma {:induction false} SaveCount(cfg: Config, ram: Ram, op: Op)
    requires Sound(cfg, ram.reg) && PlanOf(cfg, ram, op).Write?
    ensures |SavesOf(cfg, PlanOf(cfg, ram, op))| == CommitPoint(PlanOf(cfg, ram, op)) + 1
  {
    PlanShape(cfg, ram, op);
  }

  /**
   * A storage error is reported exactly when a save was refused, and what is acknowledged without one has
   * all its saves on flash: two, or three with a waveform.
   */
  lemma {:induction false} StorageErrorsAreRefusedSaves(cfg: Config, ram: Ram, records: Records, op: Op, landed: nat)
    requires Sound(cfg, ram.reg)
    ensures var plan, outcome := PlanOf(cfg, ram, op), Perform(cfg, ram, records, op, landed);
            var saves := if plan.Write? && plan.payload >= 0 then 3 else 2;
            && (outcome.result == StorageError <==> plan.Write? && landed < saves)
            && (outcome.result == Ok <==> plan == Keep || (plan.Write? && landed >= saves))
  {
    hide Sound, ValidateName, First, ProjectedBytes, Occupancy, Saved, SavesOf;
    if PlanOf(cfg, ram, op).Write? {
      SaveCount(cfg, ram, op);
    } else if PlanOf(cfg, ram, op).Refuse? {
      RefusalsAreNotStorage(cfg, ram, op);
    }
  }

  lemma {:induction false} RefusalsAreNotStorage(cfg: Config, ram: Ram, op: Op)
    requires PlanOf(cfg, ram, op).Refuse?
    ensures PlanOf(cfg, ram, op).why != StorageError && PlanOf(cfg, ram, op).why != Ok
  {
    hide First, ProjectedBytes, Occupancy;
  }

  lemma {:induction false} SoundRevision(cfg: Config, reg: Registry)
    requires Sound(cfg, reg)
    ensures 1 <= reg.revision <= REVISION_MAX
  {
  }

  // ---- Revisions ----------------------------------------------------------------------------

  predicate NoReset(events: seq<Event>) {
    forall i :: 0 <= i < |events| ==> !events[i].op.FactoryReset?
  }

  /**
   * One step of the revision sequence. An acknowledged operation either saved nothing and left the
   * registry as it was, or raised the revision: by one, or to one past the greater of the source and
   * local revisions for a restore commit. At the ceiling nothing is written.
   */
  lemma {:induction false} RevisionSequence(cfg: Config, ram: Ram, records: Records, op: Op, landed: nat)
    requires Sound(cfg, ram.reg) && !op.FactoryReset?
    ensures var outcome := Perform(cfg, ram, records, op, landed);
            && (outcome.result == Ok && outcome.ram == ram ==> outcome.records == records)
            && (outcome.result == Ok && outcome.ram != ram ==>
                  ram.reg.revision < outcome.ram.reg.revision <= REVISION_MAX &&
                  outcome.ram.reg.revision ==
                    (if op.RestoreCommit? then Max(op.sourceRevision, ram.reg.revision) else ram.reg.revision) + 1)
            && (outcome.result != Ok ==> outcome.ram == ram)
            && (ram.reg.revision == REVISION_MAX ==> outcome.ram == ram && outcome.records == records)
  {
    hide Sound, Saved, SavesOf, PutPlan, RenamePlan, RemovePlan, RemoveByIdPlan, ClearAllPlan, RestoreBeginPlan,
         ImportPlan, RestoreCommitPlan;
    if PlanOf(cfg, ram, op).Write? {
      RevisionRises(cfg, Machine(ram, records), op);
      PlanKeepsSound(cfg, ram, op);
    }
  }

  /** Over a whole run the revision a reader sees never goes back, through every failure and reboot. */
  lemma {:induction false} RevisionNeverFalls(cfg: Config, m: Machine, disk: Registry, events: seq<Event>)
    requires Tracks(cfg, m, disk) && NoReset(events)
    ensures m.ram.reg.revision <= After(cfg, m, events).ram.reg.revision <= REVISION_MAX
    decreases |events|
  {
    hide Perform, Reboot, Described, Sound;
    SoundRevision(cfg, m.ram.reg);
    if events != [] {
      StepRevision(cfg, m, disk, events[0]);
      StepTracks(cfg, m, disk, events[0]);
      RevisionNeverFalls(cfg, Step(cfg, m, events[0]), DiskAfter(cfg, m, disk, events[0]), events[1..]);
    }
  }

  lemma {:induction false} StepRevision(cfg: Config, m: Machine, disk: Registry, e: Event)
    requires Tracks(cfg, m, disk) && !e.op.FactoryReset?
    ensures m.ram.reg.revision <= Step(cfg, m, e).ram.reg.revision
  {
    hide Sound, Described, Saved, SavesOf, Reboot, CommitPoint;
    StepTracks(cfg, m, disk, e);
    if PlanOf(cfg, m.ram, e.op).Write? {
      RevisionRises(cfg, m, e.op);
      PlanKeepsSound(cfg, m.ram, e.op);
    }
  }

  // ---- Ids ----------------------------------------------------------------------------------

  /** Runs in which the id counter is only ever drawn from. */
  predicate Drawing(events: seq<Event>) {
    forall i :: 0 <= i < |events| ==> !events[i].op.FactoryReset? && !events[i].op.RestoreBegin?
  }

  /**
   * Since a moment when the counter stood at `counter` and the commands were `listed`, both RAM and
   * flash hold only listed commands and commands numbered from the counter on.
   */
  ghost predicate OnlyNewer(m: Machine, disk: Registry, counter: u32, listed: set<u32>) {
    && counter <= m.ram.reg.nextId <= disk.nextId
    && m.ram.reg.restoreState == 0 && disk.restoreState == 0
    && (forall id :: id in Held(m.ram.reg) ==> id in listed || id >= counter)
    && (forall id :: id in Held(disk) ==> id in listed || id >= counter)
  }

  lemma {:induction false} PlanDraws(cfg: Config, ram: Ram, op: Op)
    requires Sound(cfg, ram.reg) && PlanOf(cfg, ram, op).Write?
    requires !op.FactoryReset? && !op.RestoreBegin? && ram.reg.restoreState == 0
    ensures var next := PlanOf(cfg, ram, op).next.reg;
            && ram.reg.nextId <= next.nextId && next.restoreState == 0
            && forall id :: id in Held(next) ==> id in Held(ram.reg) || id == ram.reg.nextId
  {
    hide Sound, ValidateName, ProjectedBytes, Occupancy;
    var reg, next := ram.reg, PlanOf(cfg, ram, op).next.reg;
    forall id | id in Held(next)
      ensures id in Held(reg) || id == reg.nextId
    {
      var i :| 0 <= i < |next.slots| && next.slots[i].Occupied() && next.slots[i].id == id;
      if i < |reg.slots| && reg.slots[i].Occupied() {
        assert reg.slots[i].id in Held(reg);
      }
    }
  }

  lemma {:induction false} StepOnlyNewer(cfg: Config, m: Machine, disk: Registry, e: Event, counter: u32,
                                         listed: set<u32>)
    requires Tracks(cfg, m, disk) && OnlyNewer(m, disk, counter, listed)
    requires !e.op.FactoryReset? && !e.op.RestoreBegin?
    ensures OnlyNewer(Step(cfg, m, e), DiskAfter(cfg, m, disk, e), counter, listed)
  {
    hide Sound, Described, Saved, SavesOf, Reboot, CommitPoint, Held;
    StepTracks(cfg, m, disk, e);
    if PlanOf(cfg, m.ram, e.op).Write? {
      PlanDraws(cfg, m.ram, e.op);
      PlanKeepsSound(cfg, m.ram, e.op);
      SaveCount(cfg, m.ram, e.op);
    }
  }

  /** The same over a whole run, through refused saves, power cuts and reboots. */
  lemma {:induction false} RunOnlyNewer(cfg: Config, m: Machine, disk: Registry, events: seq<Event>, counter: u32,
                                        listed: set<u32>) returns (disk': Registry)
    requires Tracks(cfg, m, disk) && OnlyNewer(m, disk, counter, listed) && Drawing(events)
    ensures Tracks(cfg, After(cfg, m, events), disk')
    ensures OnlyNewer(After(cfg, m, events), disk', counter, listed)
    decreases |events|
  {
    hide Tracks, OnlyNewer, Step, DiskAfter;
    if events == [] {
      disk' := disk;
    } else {
      StepTracks(cfg, m, disk, events[0]);
      StepOnlyNewer(cfg, m, disk, events[0], counter, listed);
      disk' := RunOnlyNewer(cfg, Step(cfg, m, events[0]), DiskAfter(cfg, m, disk, events[0]), events[1..], counter,
                            listed);
    }
  }

  /** A writable boot brought back every command flash described. */
  lemma {:induction false} WritableBootIsWhole(cfg: Config, records: Records, disk: Registry, minted: BridgeId,
                                               landed: nat)
    requires Sound(cfg, disk) && Described(cfg, records, disk)
    requires !Reboot(cfg, records, minted, landed).ram.readOnly
    ensures Held(Reboot(cfg, records, minted, landed).ram.reg) == Held(disk)
  {
    hide IndexBytes, HeaderBytes, Begin, FateOf, TallyOf;
    SoundIsStorable(cfg, disk);
    var rows := DescribedBoot(cfg, records, disk, Blank(cfg), minted, landed);
    var fates := Fates(cfg, records, rows);
    NoFaults(fates, |fates|);
    var slots := Filled(fates, EmptySlots(cfg));
    forall i | 0 <= i < |slots|
      ensures slots[i].Occupied() <==> disk.slots[i].Occupied()
      ensures slots[i].Occupied() ==> slots[i].id == disk.slots[i].id
    {
      assert SlotSound(cfg, disk.nextId, disk.slots[i]);
      LoadedRow(cfg, records, i, rows[i], disk.slots[i]);
      FittingRow(cfg, records, i, rows[i], disk.slots[i]);
    }
    SameIds(disk.(slots := slots), disk);
  }

  lemma {:induction false} SameIds(a: Registry, b: Registry)
    requires |a.slots| == |b.slots|
    requires forall i :: 0 <= i < |a.slots| ==> (a.slots[i].Occupied() <==> b.slots[i].Occupied())
    requires forall i :: 0 <= i < |a.slots| && a.slots[i].Occupied() ==> a.slots[i].id == b.slots[i].id
    ensures Held(a) == Held(b)
  {
    forall id | id in Held(a)
      ensures id in Held(b)
    {
      var i :| 0 <= i < |a.slots| && a.slots[i].Occupied() && a.slots[i].id == id;
      assert b.slots[i].id == id;
    }
    forall id | id in Held(b)
      ensures id in Held(a)
    {
      var i :| 0 <= i < |b.slots| && b.slots[i].Occupied() && b.slots[i].id == id;
      assert a.slots[i].id == id;
    }
  }

  lemma {:induction false} NoFaults(fates: seq<SlotFate>, n: nat)
    requires n <= |fates| && TallyOf(fates, n).payloadFaults == 0
    ensures forall i :: 0 <= i < n ==> !fates[i].Damaged?
  {
    if n != 0 {
      NoFaults(fates, n - 1);
    }
  }

  lemma {:induction false} FittingRow(cfg: Config, records: Records, i: nat, row: Row, c: Command)
    requires i < cfg.maxCommands && RowMatches(row, c)
    requires c.Occupied() ==> c.name != [] && 1 <= |c.timings| <= cfg.maxPulses
    ensures var fate := FateOf(cfg, records, i, row);
            if c.Occupied() then fate.Loaded? || fate.Damaged? else fate.Vacant?
  {
    hide TimingsCrc, TimingsOf;
  }

  /**
   * Flash can bring back no command that RAM has let go: either the session is frozen read-only, or
   * whatever flash describes RAM still holds or has not yet numbered.
   */
  ghost predicate NothingBehind(cfg: Config, m: Machine, disk: Registry) {
    if m.ram.readOnly then Frozen(cfg, m) else OnlyNewer(m, disk, m.ram.reg.nextId, Held(m.ram.reg))
  }

  lemma {:induction false} StepNothingBehind(cfg: Config, m: Machine, disk: Registry, e: Event)
    requires Tracks(cfg, m, disk) && NothingBehind(cfg, m, disk)
    requires !e.op.FactoryReset? && !e.op.RestoreBegin?
    ensures NothingBehind(cfg, Step(cfg, m, e), DiskAfter(cfg, m, disk, e))
  {
    hide Sound, Described, Saved, SavesOf, Reboot, CommitPoint, Held, Frozen;
    if m.ram.readOnly {
      FrozenStep(cfg, m, e);
    } else {
      var m', disk' := Step(cfg, m, e), DiskAfter(cfg, m, disk, e);
      StepTracks(cfg, m, disk, e);
      StepOnlyNewer(cfg, m, disk, e, m.ram.reg.nextId, Held(m.ram.reg));
      if e.PowerCut? {
        AttemptDescribes(cfg, m, disk, e);
        BootNothingBehind(cfg, Attempt(cfg, m, e).records, disk', e.minted, e.bootLanded, m');
      } else if PlanOf(cfg, m.ram, e.op).Write? {
        PlanKeepsSound(cfg, m.ram, e.op);
        SaveCount(cfg, m.ram, e.op);
        PlanDraws(cfg, m.ram, e.op);
        assert m'.ram == m.ram || m'.ram.reg == disk';
      }
    }
  }

  lemma {:induction false} BootNothingBehind(cfg: Config, records: Records, disk: Registry, minted: BridgeId,
                                             landed: nat, m: Machine)
    requires Sound(cfg, disk) && Described(cfg, records, disk) && disk.restoreState == 0
    requires var started := Reboot(cfg, records, minted, landed); m == Machine(started.ram, started.records)
    ensures NothingBehind(cfg, m, disk)
  {
    hide IndexBytes, HeaderBytes, Held, LoadIndex, ReadBack;
    RebootKeeps(cfg, records, disk, minted, landed);
    if !m.ram.readOnly {
      WritableBootIsWhole(cfg, records, disk, minted, landed);
    }
  }

  lemma {:induction false} RunNothingBehind(cfg: Config, m: Machine, disk: Registry, events: seq<Event>)
    returns (disk': Registry)
    requires Tracks(cfg, m, disk) && NothingBehind(cfg, m, disk) && Drawing(events)
    ensures Tracks(cfg, After(cfg, m, events), disk') && NothingBehind(cfg, After(cfg, m, events), disk')
    decreases |events|
  {
    hide Tracks, NothingBehind, Step, DiskAfter;
    if events == [] {
      disk' := disk;
    } else {
      StepTracks(cfg, m, disk, events[0]);
      StepNothingBehind(cfg, m, disk, events[0]);
      disk' := RunNothingBehind(cfg, Step(cfg, m, events[0]), DiskAfter(cfg, m, disk, events[0]), events[1..]);
    }
  }

  lemma {:induction false} AfterAppend(cfg: Config, m: Machine, a: seq<Event>, b: seq<Event>)
    ensures After(cfg, m, a + b) == After(cfg, After(cfg, m, a), b)
    decreases |a|
  {
    hide Step;
    if a == [] {
      assert a + b == b;
    } else {
      assert (a + b)[1..] == a[1..] + b;
      AfterAppend(cfg, Step(cfg, m, a[0]), a[1..], b);
    }
  }

  /**
   * Read the listing and the counter at any point of a run that only draws ids. Whatever the device
   * holds at any later point was in that listing, or is numbered at or above that counter.
   */
  lemma {:induction false} ListingStaysEvidence(cfg: Config, m: Machine, disk: Registry, before: seq<Event>,
                                                after: seq<Event>)
    requires Tracks(cfg, m, disk) && NothingBehind(cfg, m, disk) && Drawing(before) && Drawing(after)
    ensures var read := After(cfg, m, before).ram.reg;
            forall id :: id in Held(After(cfg, m, before + after).ram.reg) ==> id in Held(read) || id >= read.nextId
  {
    hide Tracks, Held, Step;
    var m1 := After(cfg, m, before);
    var disk1 := RunNothingBehind(cfg, m, disk, before);
    AfterAppend(cfg, m, before, after);
    if m1.ram.readOnly {
      ReadOnlyWritesNothing(cfg, m1, after);
    } else {
      var _ := RunOnlyNewer(cfg, m1, disk1, after, m1.ram.reg.nextId, Held(m1.ram.reg));
    }
  }

  /** An acknowledged put of a name the registry did not hold. */
  predicate Learned(cfg: Config, m: Machine, e: Event) {
    e.Do? && e.op.Put? && First(m.ram.reg.slots, ByName(e.op.command.name)) < 0 && Attempt(cfg, m, e).result == Ok
  }

  lemma {:induction false} LearnedId(cfg: Config, m: Machine, e: Event)
    requires Sound(cfg, m.ram.reg) && Learned(cfg, m, e)
    ensures var id := m.ram.reg.nextId;
            && id !in Held(m.ram.reg) && id in Held(Step(cfg, m, e).ram.reg)
            && Step(cfg, m, e).ram.reg.nextId == id + 1
  {
    hide ValidateName, ProjectedBytes, Saved, SavesOf;
    var next := Step(cfg, m, e).ram.reg;
    var slot := First(m.ram.reg.slots, AnyFree);
    assert next.slots[slot].id == m.ram.reg.nextId;
    forall i | 0 <= i < |m.ram.reg.slots| && m.ram.reg.slots[i].Occupied()
      ensures m.ram.reg.slots[i].id != m.ram.reg.nextId
    {
      assert SlotSound(cfg, m.ram.reg.nextId, m.ram.reg.slots[i]);
    }
  }

  /** Two acknowledged puts of new names, any run apart, never receive the same id. */
  lemma {:induction false} IdsNeverReused(cfg: Config, m: Machine, disk: Registry, first: Event, between: seq<Event>,
                                          second: Event)
    requires Tracks(cfg, m, disk) && m.ram.reg.restoreState == 0 && Drawing(between)
    requires Learned(cfg, m, first)
    requires Learned(cfg, After(cfg, Step(cfg, m, first), between), second)
    ensures var later := After(cfg, Step(cfg, m, first), between);
            0 < NamedId(Step(cfg, m, first), first) < NamedId(Step(cfg, later, second), second)
  {
    hide Sound, Described, Held, NamedId;
    LearnedId(cfg, m, first);
    LearnedIsNamed(cfg, m, first);
    var m1 := Step(cfg, m, first);
    var disk1 := DiskAfter(cfg, m, disk, first);
    StepTracks(cfg, m, disk, first);
    AcknowledgedOnDisk(cfg, m, disk, first);
    StartOnlyNewer(m1, disk1);
    var _ := RunOnlyNewer(cfg, m1, disk1, between, m1.ram.reg.nextId, Held(m1.ram.reg));
    LearnedIsNamed(cfg, After(cfg, m1, between), second);
  }

  /** The id of the command that now bears the name just put, or 0. */
  function NamedId(m: Machine, e: Event): u32
    requires e.op.Put?
  {
    var slot := First(m.ram.reg.slots, ByName(e.op.command.name));
    if slot < 0 then COMMAND_ID_NONE else m.ram.reg.slots[slot].id
  }

  /** A new name is given the number the counter stood at. */
  lemma {:induction false} LearnedIsNamed(cfg: Config, m: Machine, e: Event)
    requires Sound(cfg, m.ram.reg) && Learned(cfg, m, e)
    ensures NamedId(Step(cfg, m, e), e) == m.ram.reg.nextId > 0
  {
    hide ValidateName, ProjectedBytes, Saved, SavesOf;
    var before, after := m.ram.reg, Step(cfg, m, e).ram.reg;
    PlacedByName(before, after, e.op.command.name, First(before.slots, AnyFree));
  }

  /** An acknowledged write is exactly what flash describes. */
  lemma {:induction false} AcknowledgedOnDisk(cfg: Config, m: Machine, disk: Registry, e: Event)
    requires Sound(cfg, m.ram.reg) && e.Do? && PlanOf(cfg, m.ram, e.op).Write? && Attempt(cfg, m, e).result == Ok
    ensures DiskAfter(cfg, m, disk, e) == Step(cfg, m, e).ram.reg
  {
    hide Sound, Saved;
    SaveCount(cfg, m.ram, e.op);
  }

  lemma {:induction false} StartOnlyNewer(m: Machine, disk: Registry)
    requires disk == m.ram.reg && disk.restoreState == 0
    ensures OnlyNewer(m, disk, m.ram.reg.nextId, Held(m.ram.reg))
  {
  }

  /**
   * An id that an acknowledged remove or clear has dropped never comes back, whatever is learned,
   * refused, cut or rebooted afterwards.
   */
  lemma {:induction false} DeletedStaysDeleted(cfg: Config, m: Machine, disk: Registry, e: Event, later: seq<Event>,
                                               id: u32)
    requires Tracks(cfg, m, disk) && e.Do? && (e.op.Remove? || e.op.RemoveById? || e.op.ClearAll?)
    requires id in Held(m.ram.reg) && id !in Held(Step(cfg, m, e).ram.reg)
    requires Drawing(later)
    ensures id !in Held(After(cfg, Step(cfg, m, e), later).ram.reg)
  {
    hide Described, Saved, Held;
    var m1 := Step(cfg, m, e);
    var disk1 := DiskAfter(cfg, m, disk, e);
    DroppedByWrite(cfg, m, e, id);
    StepTracks(cfg, m, disk, e);
    AcknowledgedOnDisk(cfg, m, disk, e);
    HeldBelow(cfg, m.ram.reg, id);
    StartOnlyNewer(m1, disk1);
    var _ := RunOnlyNewer(cfg, m1, disk1, later, m1.ram.reg.nextId, Held(m1.ram.reg));
  }

  lemma {:induction false} HeldBelow(cfg: Config, reg: Registry, id: u32)
    requires Sound(cfg, reg) && id in Held(reg)
    ensures id < reg.nextId
  {
    var i :| 0 <= i < |reg.slots| && reg.slots[i].Occupied() && reg.slots[i].id == id;
    assert SlotSound(cfg, reg.nextId, reg.slots[i]);
  }

  lemma {:induction false} DroppedByWrite(cfg: Config, m: Machine, e: Event, id: u32)
    requires Sound(cfg, m.ram.reg) && e.Do? && (e.op.Remove? || e.op.RemoveById? || e.op.ClearAll?)
    requires id in Held(m.ram.reg) && id !in Held(Step(cfg, m, e).ram.reg)
    ensures PlanOf(cfg, m.ram, e.op).Write? && Attempt(cfg, m, e).result == Ok
    ensures Step(cfg, m, e).ram.reg.nextId == m.ram.reg.nextId && Step(cfg, m, e).ram.reg.restoreState == 0
  {
    hide Held, Saved, SavesOf, Sound;
  }

  /**
   * Where runs begin: a first boot whose identity write lands is sound, in step with flash, and leaves
   * nothing behind that RAM does not know.
   */
  lemma {:induction false} FirstBootTracks(cfg: Config, records: Records, minted: BridgeId, landed: nat)
    requires Load(records, HeaderKey, HEADER_BYTES).None? && landed >= 2
    ensures var started := Reboot(cfg, records, minted, landed);
            var m := Machine(started.ram, started.records);
            && m.ram == Ram(Minted(cfg, minted), false, NoFault)
            && InStep(cfg, m.records, m.ram.reg)
            && Tracks(cfg, m, m.ram.reg) && NothingBehind(cfg, m, m.ram.reg)
  {
    hide IndexBytes, HeaderBytes;
    var reg := Minted(cfg, minted);
    EmptyIsSound(cfg, reg);
    var saves := IndexSaves(cfg, reg);
    assert Landing(saves, landed) == saves;
    UnfoldSaved(records, saves);
    UnfoldSaved(records[IndexKey := IndexBytes(reg)], saves[1..]);
    assert reg ==
           Blank(cfg).(bridgeId := minted, nextId := COMMAND_ID_FIRST, revision := REVISION_INITIAL, restoreState := 0);
    StartOnlyNewer(Machine(Ram(reg, false, NoFault), Reboot(cfg, records, minted, landed).records), reg);
  }

  // ---- Read-only sessions -------------------------------------------------------------------

  /** A session that booted read-only: RAM is what any boot over these records finds. */
  ghost predicate Frozen(cfg: Config, m: Machine) {
    && m.ram.readOnly
    && Load(m.records, HeaderKey, HEADER_BYTES).Some?
    && ReadBack(cfg, Blank(cfg), m.records, m.records[HeaderKey]).1 == m.ram
  }

  /** Every read-only boot is such a session, whatever fault made it one. */
  lemma {:induction false} ReadOnlyBootIsFrozen(cfg: Config, records: Records, minted: BridgeId, landed: nat)
    requires Reboot(cfg, records, minted, landed).ram.readOnly
    ensures var started := Reboot(cfg, records, minted, landed); Frozen(cfg, Machine(started.ram, started.records))
  {
    hide LoadIndex, ReadBack;
  }

  lemma {:induction false} FrozenReboot(cfg: Config, m: Machine, minted: BridgeId, landed: nat)
    requires Frozen(cfg, m)
    ensures Reboot(cfg, m.records, minted, landed).ram == m.ram
    ensures Reboot(cfg, m.records, minted, landed).records == m.records
  {
    hide LoadIndex, ReadBack;
  }

  lemma {:induction false} ReadOnlyRefuses(cfg: Config, ram: Ram, op: Op)
    requires ram.readOnly && !op.FactoryReset?
    ensures PlanOf(cfg, ram, op) == Refuse(ReadOnly)
  {
  }

  /**
   * However a boot came to be read-only, until a factory reset no run of operations, cuts and reboots
   * changes what it loaded or a byte of flash.
   */
  lemma {:induction false} ReadOnlyBootStandsStill(cfg: Config, records: Records, minted: BridgeId, landed: nat,
                                                   events: seq<Event>)
    requires Reboot(cfg, records, minted, landed).ram.readOnly && NoReset(events)
    ensures var ram := Reboot(cfg, records, minted, landed).ram;
            After(cfg, Machine(ram, records), events) == Machine(ram, records)
  {
    hide ReadBack, LoadIndex, After, Step;
    ReadOnlyBootIsFrozen(cfg, records, minted, landed);
    ReadOnlyWritesNothing(cfg, Machine(Reboot(cfg, records, minted, landed).ram, records), events);
  }

  /** Until a factory reset, no run of operations, cuts and reboots changes RAM or a byte of flash. */
  lemma {:induction false} ReadOnlyWritesNothing(cfg: Config, m: Machine, events: seq<Event>)
    requires Frozen(cfg, m) && NoReset(events)
    ensures After(cfg, m, events) == m
    decreases |events|
  {
    hide Frozen, Reboot;
    if events != [] {
      FrozenStep(cfg, m, events[0]);
      ReadOnlyWritesNothing(cfg, Step(cfg, m, events[0]), events[1..]);
    }
  }

  lemma {:induction false} FrozenStep(cfg: Config, m: Machine, e: Event)
    requires Frozen(cfg, m) && !e.op.FactoryReset?
    ensures Step(cfg, m, e) == m
  {
    hide Reboot;
    ReadOnlyRefuses(cfg, m.ram, e.op);
    if e.PowerCut? {
      FrozenReboot(cfg, m, e.minted, e.bootLanded);
    }
  }

  /** A factory reset is the way out: acknowledged, it leaves a writable, empty, fresh registry. */
  lemma {:induction false} FactoryResetRevives(cfg: Config, m: Machine, minted: BridgeId, landed: nat)
    requires |m.ram.reg.slots| == cfg.maxCommands
    requires Perform(cfg, m.ram, m.records, FactoryReset(minted), landed).result == Ok
    ensures var outcome := Perform(cfg, m.ram, m.records, FactoryReset(minted), landed);
            && outcome.ram == Ram(Minted(cfg, minted), false, NoFault)
            && InStep(cfg, outcome.records, Minted(cfg, minted))
            && Reboot(cfg, outcome.records, minted, landed).ram == outcome.ram
  {
    hide IndexBytes, HeaderBytes, Begin;
    var reg := Minted(cfg, minted);
    EmptyIsSound(cfg, reg);
    var outcome := Perform(cfg, m.ram, m.records, FactoryReset(minted), landed);
    var saves := IndexSaves(cfg, reg);
    assert Landing(saves, landed) == saves;
    UnfoldSaved(m.records, saves);
    UnfoldSaved(m.records[IndexKey := IndexBytes(reg)], saves[1..]);
    RoundTrip(cfg, outcome.records, reg, minted, landed);
  }
}

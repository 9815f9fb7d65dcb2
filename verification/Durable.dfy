/**
 * What every run of a device keeps between RAM and flash, when any save of any operation may be refused
 * and the device goes on, or power may go and it boots: flash is the registry RAM holds, or a later one.
 */
module Durable {
  import opened Bytes
  import opened RegistryModel
  import opened Layout
  import opened Flash
  import opened Recovery
  import opened Runs

  /** Neither mid-restore nor read-only: the session whose listing is the registry. */
  predicate Readable(ram: Ram) {
    !ram.readOnly && ram.reg.restoreState == 0
  }

  // ---- Waveforms that are not mistaken for others -------------------------------------------

  /** A record that would load as the waveform of `c` is that waveform. */
  predicate Unmistaken(records: Records, i: nat, c: Command) {
    match Load(records, PayloadKey(i), 4 * |c.timings|)
    case None => true
    case Some(bytes) => TimingsCrc(TimingsOf(bytes)) == TimingsCrc(c.timings) ==> bytes == TimingBytes(c.timings)
  }

  ghost predicate NoneMistaken(records: Records, slots: seq<Command>) {
    forall i :: 0 <= i < |slots| && slots[i].Occupied() ==> Unmistaken(records, i, slots[i])
  }

  /** Written into the slot of `had`, this waveform is not taken for another. */
  predicate Apart(had: Command, heard: seq<i32>) {
    had.Occupied() && Collides(had.timings, heard) ==> had.timings == heard
  }

  lemma {:induction false} OwnWaveform(records: Records, i: nat, c: Command)
    requires WaveformStored(records, i, c)
    ensures Unmistaken(records, i, c)
  {
  }

  lemma {:induction false} OverwrittenApart(records: Records, i: nat, c: Command, heard: seq<i32>)
    requires c.Occupied() && Apart(c, heard) && PayloadKey(i) in records && records[PayloadKey(i)] == TimingBytes(heard)
    ensures Unmistaken(records, i, c)
  {
    hide TimingsCrc, TimingBytes, TimingsOf;
    TimingsRoundTrip(heard);
  }

  /** Records of the same waveforms, but for one slot. */
  lemma {:induction false} MistakenElsewhere(records: Records, after: Records, slots: seq<Command>, s: int)
    requires NoneMistaken(records, slots)
    requires forall i: nat :: i != s && PayloadKey(i) in after ==>
               PayloadKey(i) in records && after[PayloadKey(i)] == records[PayloadKey(i)]
    requires 0 <= s < |slots| && slots[s].Occupied() ==> Unmistaken(after, s, slots[s])
    ensures NoneMistaken(after, slots)
  {
    hide TimingsCrc, TimingBytes, TimingsOf;
    forall i | 0 <= i < |slots| && slots[i].Occupied()
      ensures Unmistaken(after, i, slots[i])
    {
      assert Unmistaken(records, i, slots[i]);
    }
  }

  // ---- What flash is ------------------------------------------------------------------------

  /** Flash describes the sound registry `disk`, and no waveform on it is mistaken for one of its own. */
  ghost predicate OnFlash(cfg: Config, records: Records, disk: Registry) {
    && Sound(cfg, disk) && Described(cfg, records, disk) && NoneMistaken(records, disk.slots)
    && (disk.revision == REVISION_INITIAL ==> disk == Minted(cfg, disk.bridgeId))
  }

  /**
   * RAM and flash. RAM is never ahead. Where both are closed registries of one bridge at one revision they
   * are the same; a closed flash of another bridge leaves RAM closed and empty, as a reset whose saves were
   * refused does; and only a reset of a read-only session is read-only over a flash that would load.
   */
  ghost predicate Kept(cfg: Config, m: Machine, disk: Registry) {
    var reg := m.ram.reg;
    && Tracks(cfg, m, disk) && OnFlash(cfg, m.records, disk) && NoneMistaken(m.records, reg.slots)
    && (reg.revision == REVISION_INITIAL ==> reg == Minted(cfg, reg.bridgeId))
    && (Readable(m.ram) && disk.restoreState == 0 && disk.bridgeId == reg.bridgeId && disk.revision == reg.revision ==>
          reg == disk)
    && (disk.restoreState == 0 && disk.bridgeId != reg.bridgeId ==>
          reg.restoreState == 0 && reg.slots == EmptySlots(cfg))
    && (m.ram.readOnly && InStep(cfg, m.records, disk) ==>
          disk.revision == REVISION_INITIAL && reg.revision == REVISION_INITIAL)
  }

  /**
   * The one thing asked of a run: a waveform that lands without its index is not taken for another one, of
   * the command flash describes in that slot, or, when the device goes on, of the command RAM holds there.
   */
  predicate Clean(cfg: Config, m: Machine, disk: Registry, e: Event) {
    var plan := PlanOf(cfg, m.ram, e.op);
    plan.Write? && 0 <= plan.payload < |plan.next.reg.slots| ==>
      var s, heard := plan.payload, plan.next.reg.slots[plan.payload].timings;
      && (e.landed == 1 && s < |disk.slots| ==> Apart(disk.slots[s], heard))
      && (e.Do? && 1 <= e.landed <= 2 && s < |m.ram.reg.slots| ==> Apart(m.ram.reg.slots[s], heard))
  }

  // ---- One attempt --------------------------------------------------------------------------

  lemma {:induction false} AttemptRecords(cfg: Config, m: Machine, e: Event)
    requires Sound(cfg, m.ram.reg) && PlanOf(cfg, m.ram, e.op).Write?
    ensures var plan, after := PlanOf(cfg, m.ram, e.op), Attempt(cfg, m, e).records;
            && plan.payload < |plan.next.reg.slots| == cfg.maxCommands
            && |m.ram.reg.slots| == cfg.maxCommands
            && (forall i: nat :: i != plan.payload && PayloadKey(i) in after ==>
                  PayloadKey(i) in m.records && after[PayloadKey(i)] == m.records[PayloadKey(i)])
            && (plan.payload >= 0 && e.landed >= 1 ==>
                  PayloadKey(plan.payload) in after &&
                  after[PayloadKey(plan.payload)] == TimingBytes(plan.next.reg.slots[plan.payload].timings))
            && (e.landed == 0 ==> after == m.records)
  {
    hide IndexBytes, HeaderBytes, TimingBytes, Sound, PlanOf, CutRecords, SavesOf;
    CutRecordsAre(cfg, m.ram, m.records, e.op, e.landed);
    PlanShape(cfg, m.ram, e.op);
    SoundSlots(cfg, m.ram.reg);
    AttemptIsCut(cfg, m, e);
  }

  lemma {:induction false} AttemptIsCut(cfg: Config, m: Machine, e: Event)
    requires PlanOf(cfg, m.ram, e.op).Write?
    ensures Attempt(cfg, m, e).records == CutRecords(cfg, m.ram, m.records, e.op, e.landed)
  {
    hide PlanOf, Saved, SavesOf;
  }

  /** Slots of the decided registry hold waveforms of RAM, or the new one. */
  lemma {:induction false} NextUnmistaken(cfg: Config, m: Machine, e: Event)
    requires Sound(cfg, m.ram.reg) && NoneMistaken(m.records, m.ram.reg.slots)
    requires PlanOf(cfg, m.ram, e.op).Write? && CommitPoint(PlanOf(cfg, m.ram, e.op)) <= e.landed
    ensures NoneMistaken(Attempt(cfg, m, e).records, PlanOf(cfg, m.ram, e.op).next.reg.slots)
  {
    hide Sound, PlanOf, Attempt, Unmistaken;
    var plan, after := PlanOf(cfg, m.ram, e.op), Attempt(cfg, m, e).records;
    AttemptRecords(cfg, m, e);
    forall i | 0 <= i < |plan.next.reg.slots| && plan.next.reg.slots[i].Occupied()
      ensures Unmistaken(after, i, plan.next.reg.slots[i])
    {
      if i == plan.payload {
        OwnWaveform(after, i, plan.next.reg.slots[i]);
      } else {
        WaveformsKept(cfg, m.ram, e.op, i);
        assert Unmistaken(m.records, i, m.ram.reg.slots[i]);
        SameRecord(m.records, after, i, m.ram.reg.slots[i], plan.next.reg.slots[i]);
      }
    }
  }

  lemma {:induction false} SameRecord(records: Records, after: Records, i: nat, c: Command, c': Command)
    requires Unmistaken(records, i, c) && c'.timings == c.timings
    requires PayloadKey(i) in after ==> PayloadKey(i) in records && after[PayloadKey(i)] == records[PayloadKey(i)]
    ensures Unmistaken(after, i, c')
  {
    hide TimingsCrc, TimingBytes, TimingsOf;
  }

  /** Slots that are not changed keep their waveforms apart. */
  lemma {:induction false} OldUnmistaken(cfg: Config, m: Machine, e: Event, slots: seq<Command>)
    requires Sound(cfg, m.ram.reg) && NoneMistaken(m.records, slots) && |slots| == cfg.maxCommands
    requires PlanOf(cfg, m.ram, e.op).Write?
    requires var plan := PlanOf(cfg, m.ram, e.op);
             0 <= plan.payload < |plan.next.reg.slots| && plan.payload < |slots| && e.landed >= 1 ==>
               Apart(slots[plan.payload], plan.next.reg.slots[plan.payload].timings)
    ensures NoneMistaken(Attempt(cfg, m, e).records, slots)
  {
    hide Sound, PlanOf, Attempt, Unmistaken, NoneMistaken, Apart;
    var plan, after := PlanOf(cfg, m.ram, e.op), Attempt(cfg, m, e).records;
    AttemptRecords(cfg, m, e);
    var s := plan.payload;
    if 0 <= s && slots[s].Occupied() && e.landed >= 1 {
      OverwrittenApart(after, s, slots[s], plan.next.reg.slots[s].timings);
    } else if e.landed == 0 && 0 <= s && slots[s].Occupied() {
      assert Unmistaken(m.records, s, slots[s]) by { OneOfNone(m.records, slots, s); }
    }
    MistakenElsewhere(m.records, after, slots, s);
  }

  lemma {:induction false} OneOfNone(records: Records, slots: seq<Command>, i: nat)
    requires NoneMistaken(records, slots) && i < |slots| && slots[i].Occupied()
    ensures Unmistaken(records, i, slots[i])
  {
  }

  /** Whatever becomes of an operation, flash describes a registry and takes no waveform for another. */
  lemma {:induction false} AttemptOnFlash(cfg: Config, m: Machine, disk: Registry, e: Event)
    requires Kept(cfg, m, disk) && Clean(cfg, m, disk, e)
    ensures OnFlash(cfg, Attempt(cfg, m, e).records, DiskAfter(cfg, m, disk, e))
  {
    hide Sound, Described, Attempt, NoneMistaken, InStep, PlanOf, Apart;
    var plan := PlanOf(cfg, m.ram, e.op);
    AttemptDescribes(cfg, m, disk, e);
    if plan.Write? {
      NextIsMinted(cfg, m, e.op);
      if CommitPoint(plan) <= e.landed {
        NextUnmistaken(cfg, m, e);
      } else {
        SoundSlots(cfg, disk);
        OldUnmistaken(cfg, m, e, disk.slots);
      }
    } else {
      NothingAttempted(cfg, m, e);
    }
  }

  lemma {:induction false} NothingAttempted(cfg: Config, m: Machine, e: Event)
    requires !PlanOf(cfg, m.ram, e.op).Write?
    ensures Attempt(cfg, m, e).records == m.records && Attempt(cfg, m, e).ram == m.ram
  {
    hide PlanOf;
  }

  lemma {:induction false} NextIsMinted(cfg: Config, m: Machine, op: Op)
    requires Sound(cfg, m.ram.reg) && PlanOf(cfg, m.ram, op).Write?
    ensures var next := PlanOf(cfg, m.ram, op).next.reg;
            && (next.revision == REVISION_INITIAL ==> next == Minted(cfg, next.bridgeId))
            && (!op.FactoryReset? ==> next.revision > m.ram.reg.revision)
            && (op.FactoryReset? ==> next == Minted(cfg, op.minted))
            && (op.FactoryReset? ==> PlanOf(cfg, m.ram, op).undo == m.ram.(reg := next))
            && (!op.FactoryReset? ==> !m.ram.readOnly)
            && (!op.RestoreBegin? && !op.FactoryReset? ==> next.bridgeId == m.ram.reg.bridgeId)
            && (op.RestoreBegin? ==> next.restoreState == 1)
  {
    hide Sound, ValidateName, First, ProjectedBytes, Occupancy;
    if !op.FactoryReset? {
      RevisionRises(cfg, m, op);
      SoundRevision(cfg, m.ram.reg);
    }
  }

  /** The device goes on, with whatever of the saves has landed. */
  lemma {:induction false} DoKeeps(cfg: Config, m: Machine, disk: Registry, e: Event)
    requires Kept(cfg, m, disk) && Clean(cfg, m, disk, e) && e.Do?
    ensures Kept(cfg, Step(cfg, m, e), DiskAfter(cfg, m, disk, e))
  {
    hide Sound, Described, PlanOf, NoneMistaken, InStep, Apart, Saved, SavesOf, EmptySlots;
    var plan := PlanOf(cfg, m.ram, e.op);
    StepTracks(cfg, m, disk, e);
    AttemptOnFlash(cfg, m, disk, e);
    if plan.Write? {
      NextIsMinted(cfg, m, e.op);
      PlanKeepsSound(cfg, m.ram, e.op);
      PlanShape(cfg, m.ram, e.op);
      SaveCount(cfg, m.ram, e.op);
      if CommitPoint(plan) < e.landed {
        NextUnmistaken(cfg, m, e);
      } else {
        RolledBack(cfg, m, disk, e);
      }
    } else {
      NothingAttempted(cfg, m, e);
    }
  }

  /** A refused save: RAM is as before, or freshly minted. */
  lemma {:induction false} RolledBack(cfg: Config, m: Machine, disk: Registry, e: Event)
    requires Kept(cfg, m, disk) && Clean(cfg, m, disk, e) && e.Do? && PlanOf(cfg, m.ram, e.op).Write?
    requires e.landed <= CommitPoint(PlanOf(cfg, m.ram, e.op))
    ensures var m' := Step(cfg, m, e);
            && m'.ram == (if e.op.FactoryReset? then m.ram.(reg := Minted(cfg, e.op.minted)) else m.ram)
            && NoneMistaken(m'.records, m'.ram.reg.slots)
            && (e.landed == 0 ==> m'.records == m.records)
            && (e.landed < CommitPoint(PlanOf(cfg, m.ram, e.op)) && m.ram.readOnly ==> m'.records == m.records)
  {
    hide Sound, Described, PlanOf, InStep, Apart, Saved, SavesOf, Unmistaken;
    var plan := PlanOf(cfg, m.ram, e.op);
    NextIsMinted(cfg, m, e.op);
    PlanKeepsSound(cfg, m.ram, e.op);
    SaveCount(cfg, m.ram, e.op);
    SoundSlots(cfg, m.ram.reg);
    AttemptRecords(cfg, m, e);
    ResetIsShort(cfg, m.ram, e.op);
    if !e.op.FactoryReset? {
      OldUnmistaken(cfg, m, e, m.ram.reg.slots);
    }
  }

  lemma {:induction false} ResetIsShort(cfg: Config, ram: Ram, op: Op)
    requires PlanOf(cfg, ram, op).Write?
    ensures ram.readOnly ==> op.FactoryReset?
    ensures PlanOf(cfg, ram, op).payload < 0 ==> CommitPoint(PlanOf(cfg, ram, op)) == 1
    ensures PlanOf(cfg, ram, op).payload >= 0 ==> CommitPoint(PlanOf(cfg, ram, op)) == 2
    ensures op.FactoryReset? ==> PlanOf(cfg, ram, op).payload < 0
  {
    hide ValidateName, First, ProjectedBytes, Occupancy;
  }

  // ---- A boot -------------------------------------------------------------------------------

  /** A row whose waveform is not the stored one is damaged: nothing else is taken for it. */
  lemma {:induction false} RowTells(cfg: Config, records: Records, i: nat, row: Row, c: Command)
    requires i < cfg.maxCommands && RowMatches(row, c) && Unmistaken(records, i, c)
    requires c.Occupied() && c.name != [] && 1 <= |c.timings| <= cfg.maxPulses
    ensures FateOf(cfg, records, i, row) == if WaveformStored(records, i, c) then Loaded(c) else Damaged(c.name)
  {
    hide TimingsCrc, TimingBytes, TimingsOf;
    TimingsRoundTrip(c.timings);
  }

  lemma {:induction false} RowsTell(cfg: Config, records: Records, disk: Registry, rows: seq<Row>, i: nat)
    requires OnFlash(cfg, records, disk) && RowsMatch(rows, disk.slots) && i < |rows|
    ensures disk.slots[i].Occupied() ==>
              FateOf(cfg, records, i, rows[i]) ==
              if WaveformStored(records, i, disk.slots[i]) then Loaded(disk.slots[i]) else Damaged(disk.slots[i].name)
    ensures !disk.slots[i].Occupied() ==> disk.slots[i] == FREE && FateOf(cfg, records, i, rows[i]) == Vacant
  {
    hide IndexBytes, HeaderBytes, FateOf, Unmistaken, WaveformStored, Described;
    assert SlotSound(cfg, disk.nextId, disk.slots[i]);
    if disk.slots[i].Occupied() {
      RowTells(cfg, records, i, rows[i], disk.slots[i]);
    } else {
      FittingRow(cfg, records, i, rows[i], disk.slots[i]);
    }
  }

  lemma {:induction false} FaultsShow(fates: seq<SlotFate>, lost: nat)
    requires lost < |fates| && fates[lost].Damaged?
    ensures TallyOf(fates, |fates|).payloadFaults > 0
  {
    if TallyOf(fates, |fates|).payloadFaults == 0 {
      NoFaults(fates, |fates|);
    }
  }

  /** A boot over such records finds exactly `disk`, or is read-only with the commands whose waveforms are there. */
  lemma {:induction false} BootTells(cfg: Config, records: Records, disk: Registry, minted: BridgeId, landed: nat)
    requires OnFlash(cfg, records, disk)
    ensures var started := Reboot(cfg, records, minted, landed);
            && started.records == records
            && |started.ram.reg.slots| == |disk.slots|
            && (InStep(cfg, records, disk) ==> started.ram == Ram(disk, false, NoFault))
            && (!InStep(cfg, records, disk) ==> started.ram.readOnly)
            && (forall i :: 0 <= i < |disk.slots| ==>
                  started.ram.reg.slots[i] == FREE || started.ram.reg.slots[i] == disk.slots[i])
  {
    hide Begin, FateOf, TallyOf, NoneMistaken, WaveformStored, Described, Sound;
    if InStep(cfg, records, disk) {
      RoundTrip(cfg, records, disk, minted, landed);
    } else {
      SoundSlots(cfg, disk);
      SoundIsStorable(cfg, disk);
      var rows := DescribedBoot(cfg, records, disk, Blank(cfg), minted, landed);
      var fates := Fates(cfg, records, rows);
      forall i | 0 <= i < |rows|
        ensures fates[i].Loaded? ==> fates[i].command == disk.slots[i]
        ensures disk.slots[i].Occupied() && !WaveformStored(records, i, disk.slots[i]) ==> fates[i].Damaged?
      {
        RowsTell(cfg, records, disk, rows, i);
      }
      var lost :|
        0 <= lost < |disk.slots| && disk.slots[lost].Occupied() && !WaveformStored(records, lost, disk.slots[lost]);
      FaultsShow(fates, lost);
    }
  }

  /** Power back on: the device keeps what every run keeps. */
  lemma {:induction false} BootKeeps(cfg: Config, records: Records, disk: Registry, minted: BridgeId, landed: nat)
    requires OnFlash(cfg, records, disk)
    ensures var started := Reboot(cfg, records, minted, landed);
            Kept(cfg, Machine(started.ram, started.records), disk)
  {
    hide IndexBytes, HeaderBytes, Reboot, Unmistaken, WaveformStored;
    var ram := Reboot(cfg, records, minted, landed).ram;
    BootTells(cfg, records, disk, minted, landed);
    RebootKeeps(cfg, records, disk, minted, landed);
    forall i | 0 <= i < |ram.reg.slots| && ram.reg.slots[i].Occupied()
      ensures Unmistaken(records, i, ram.reg.slots[i])
    {
      assert ram.reg.slots[i] == disk.slots[i];
    }
    if disk.revision == REVISION_INITIAL {
      assert forall i :: 0 <= i < |disk.slots| ==> !disk.slots[i].Occupied();
      assert InStep(cfg, records, disk);
    }
  }

  /** One event of any kind. */
  lemma {:induction false} EventKeeps(cfg: Config, m: Machine, disk: Registry, e: Event)
    requires Kept(cfg, m, disk) && Clean(cfg, m, disk, e)
    ensures Kept(cfg, Step(cfg, m, e), DiskAfter(cfg, m, disk, e))
  {
    hide Kept, OnFlash, Clean, Reboot, DiskAfter;
    if e.Do? {
      DoKeeps(cfg, m, disk, e);
    } else {
      AttemptOnFlash(cfg, m, disk, e);
      BootKeeps(cfg, Attempt(cfg, m, e).records, DiskAfter(cfg, m, disk, e), e.minted, e.bootLanded);
    }
  }
}

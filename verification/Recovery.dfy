/**
 * What a boot finds: after a clean shutdown, after a power cut at any save of any operation, after
 * damage to a record, and under a changed configuration.
 */
module Recovery {
  import opened Bytes
  import opened Checksum
  import opened RegistryModel
  import opened Layout
  import opened Flash

  // ---- Round trip ---------------------------------------------------------------------------

  /** The fate a row meets when its waveform is the one the registry holds. */
  function CleanFate(c: Command): SlotFate {
    if c.Occupied() then Loaded(c) else Vacant
  }

  ghost predicate RowsMatch(rows: seq<Row>, slots: seq<Command>) {
    |rows| == |slots| && forall i :: 0 <= i < |slots| ==> RowMatches(rows[i], slots[i])
  }

  /** As `RowsMatch`, for every slot but one. */
  ghost predicate RowsMatchBut(rows: seq<Row>, slots: seq<Command>, except: int) {
    |rows| == |slots| && forall i :: 0 <= i < |slots| && i != except ==> RowMatches(rows[i], slots[i])
  }

  ghost predicate BootedAs(cfg: Config, started: Started, reg: Registry, before: Registry, fates: seq<SlotFate>,
                           records: Records)
    requires |fates| == cfg.maxCommands
  {
    var t := TallyOf(fates, |fates|);
    var bad := FirstDamaged(fates);
    && started.records == records
    && started.ram == Ram(reg.(slots := Filled(fates, before.slots)), t.payloadFaults > 0,
                          if t.payloadFaults > 0 then PayloadInvalid else NoFault)
    && started.report == NOTHING_STORED.(
         hadStoredData := true, storedVersion := STORE_FORMAT_VERSION, storedSlotCount := cfg.maxCommands,
         restoreIncomplete := reg.restoreState != 0, loaded := t.loaded, payloadFaults := t.payloadFaults,
         droppedUnfittable := t.unfittable, faultSlot := if bad < 0 then 0 else bad,
         faultName := if bad < 0 then [] else fates[bad].name,
         readOnly := t.payloadFaults > 0, fault := if t.payloadFaults > 0 then PayloadInvalid else NoFault)
  }

  lemma {:induction false} SoundIsStorable(cfg: Config, reg: Registry)
    requires Sound(cfg, reg)
    ensures forall i :: 0 <= i < |reg.slots| ==> Storable(reg.slots[i])
  {
    forall i | 0 <= i < |reg.slots|
      ensures Storable(reg.slots[i])
    {
      assert SlotSound(cfg, reg.nextId, reg.slots[i]);
    }
  }

  /** A boot over records that describe `reg` reads its metadata exactly and judges row by row. */
  lemma {:induction false} DescribedBoot(cfg: Config, records: Records, reg: Registry, before: Registry,
                                         minted: BridgeId, landed: nat)
    returns (rows: seq<Row>)
    requires |reg.slots| == cfg.maxCommands && forall i :: 0 <= i < |reg.slots| ==> Storable(reg.slots[i])
    requires Described(cfg, records, reg)
    ensures RowsMatch(rows, reg.slots)
    ensures BootedAs(cfg, Begin(cfg, before, records, minted, landed), reg, before, Fates(cfg, records, rows), records)
  {
    hide FateOf, TallyOf, RowAt, Crc16, HeaderBody, IndexBody, FromLe32, Filled, FirstDamaged;
    HeaderRoundTrip(cfg.maxCommands);
    SealedIsIntact(HeaderBody(cfg.maxCommands));
    SealedIsIntact(IndexBody(reg));
    MetaRoundTrip(reg);
    RowsRoundTrip(reg);
    rows := Rows(IndexBytes(reg), cfg.maxCommands);
  }

  /** As `DescribedBoot`, over any intact index with the metadata of `reg`. */
  lemma {:induction false} IntactBoot(cfg: Config, records: Records, raw: seq<byte>, reg: Registry, before: Registry,
                                      minted: BridgeId, landed: nat)
    requires |reg.slots| == cfg.maxCommands && |raw| == IndexBytesFor(cfg.maxCommands) && SealIntact(raw)
    requires HeaderKey in records && records[HeaderKey] == HeaderBytes(cfg.maxCommands)
    requires IndexKey in records && records[IndexKey] == raw
    requires raw[..META_BYTES] == MetaBytes(reg)
    ensures BootedAs(cfg, Begin(cfg, before, records, minted, landed), reg, before,
                     Fates(cfg, records, Rows(raw, cfg.maxCommands)), records)
  {
    hide FateOf, TallyOf, RowAt, Crc16, HeaderBody, FromLe32, Filled, FirstDamaged, IndexBody, SealIntact;
    HeaderRoundTrip(cfg.maxCommands);
    SealedIsIntact(HeaderBody(cfg.maxCommands));
    MetaOf(raw, reg);
  }

  lemma {:induction false} MetaOf(raw: seq<byte>, reg: Registry)
    requires |raw| >= META_BYTES && raw[..META_BYTES] == MetaBytes(reg)
    ensures raw[..16] == reg.bridgeId && FromLe32(raw[16..20]) == reg.nextId
    ensures FromLe32(raw[20..24]) == reg.revision && raw[24] == reg.restoreState
  {
    hide Crc16;
    MetaRoundTrip(reg);
    var index := IndexBytes(reg);
    assert index[..META_BYTES] == MetaBytes(reg) == raw[..META_BYTES];
    assert raw[..16] == raw[..META_BYTES][..16] && index[..16] == index[..META_BYTES][..16];
    assert raw[16..20] == raw[..META_BYTES][16..20] && index[16..20] == index[..META_BYTES][16..20];
    assert raw[20..24] == raw[..META_BYTES][20..24] && index[20..24] == index[..META_BYTES][20..24];
    assert raw[24] == raw[..META_BYTES][24] && index[24] == index[..META_BYTES][24];
  }

  lemma {:induction false} RowLoads(cfg: Config, records: Records, i: nat, row: Row, c: Command)
    requires i < cfg.maxCommands && RowMatches(row, c)
    requires c.Occupied() ==> WaveformStored(records, i, c) && c.name != [] && 1 <= |c.timings| <= cfg.maxPulses
    ensures FateOf(cfg, records, i, row) == CleanFate(c)
  {
    hide TimingsCrc, TimingBytes, TimingsOf;
    if c.Occupied() {
      TimingsRoundTrip(c.timings);
    }
  }

  /** Slots other than `except` whose waveforms are on flash load as they are. */
  lemma {:induction false} RowsLoad(cfg: Config, records: Records, rows: seq<Row>, reg: Registry, except: int)
    requires Sound(cfg, reg) && RowsMatchBut(rows, reg.slots, except)
    requires forall i :: 0 <= i < |reg.slots| && i != except && reg.slots[i].Occupied() ==>
               WaveformStored(records, i, reg.slots[i])
    ensures forall i :: 0 <= i < |rows| && i != except ==>
              Fates(cfg, records, rows)[i] == CleanFate(reg.slots[i])
    ensures forall i :: 0 <= i < |rows| && !reg.slots[i].Occupied() ==> reg.slots[i] == FREE
  {
    hide IndexBytes, HeaderBytes, TimingBytes, FateOf;
    forall i | 0 <= i < |rows|
      ensures i != except ==> FateOf(cfg, records, i, rows[i]) == CleanFate(reg.slots[i])
      ensures !reg.slots[i].Occupied() ==> reg.slots[i] == FREE
    {
      assert SlotSound(cfg, reg.nextId, reg.slots[i]);
      if i != except {
        RowLoads(cfg, records, i, rows[i], reg.slots[i]);
      }
    }
  }

  lemma {:induction false} CleanTally(fates: seq<SlotFate>, slots: seq<Command>, n: nat)
    requires n <= |fates| == |slots| && forall i :: 0 <= i < |slots| ==> fates[i] == CleanFate(slots[i])
    ensures TallyOf(fates, n) == Tally(Occupancy(slots, n), 0, 0)
  {
    if n != 0 {
      CleanTally(fates, slots, n - 1);
    }
  }

  lemma {:induction false} CleanStart(cfg: Config, fates: seq<SlotFate>, slots: seq<Command>)
    requires |fates| == |slots| == cfg.maxCommands
    requires forall i :: 0 <= i < |slots| ==> fates[i] == CleanFate(slots[i])
    requires forall i :: 0 <= i < |slots| && !slots[i].Occupied() ==> slots[i] == FREE
    ensures TallyOf(fates, |fates|) == Tally(Count(slots), 0, 0) && FirstDamaged(fates) == -1
    ensures Filled(fates, EmptySlots(cfg)) == slots
  {
    CleanTally(fates, slots, |fates|);
    assert FirstDamaged(fates) < 0;
  }

  /** Everything written reads back: the registry a boot finds is the registry that was stored. */
  lemma {:induction false} RoundTrip(cfg: Config, records: Records, reg: Registry, minted: BridgeId, landed: nat)
    requires Sound(cfg, reg) && InStep(cfg, records, reg)
    ensures Reboot(cfg, records, minted, landed) ==
            Started(CleanReport(cfg, reg), Ram(reg, false, NoFault), records)
  {
    hide IndexBytes, HeaderBytes, TimingBytes, Begin, FateOf, TallyOf;
    SoundIsStorable(cfg, reg);
    var rows := DescribedBoot(cfg, records, reg, Blank(cfg), minted, landed);
    RowsLoad(cfg, records, rows, reg, -1);
    CleanStart(cfg, Fates(cfg, records, rows), reg.slots);
  }

  // ---- Power cuts ---------------------------------------------------------------------------

  /** A put over a name the registry already holds. It overwrites that command's waveform in place. */
  predicate Relearn(ram: Ram, op: Op) {
    op.Put? && First(ram.reg.slots, ByName(op.command.name)) >= 0
  }

  /** Every occupied slot of the result either carries the waveform just saved or kept its own. */
  lemma {:induction false} WaveformsKept(cfg: Config, ram: Ram, op: Op, i: nat)
    requires Sound(cfg, ram.reg) && PlanOf(cfg, ram, op).Write?
    requires i < |ram.reg.slots| && i != PlanOf(cfg, ram, op).payload
    requires PlanOf(cfg, ram, op).next.reg.slots[i].Occupied()
    ensures |PlanOf(cfg, ram, op).next.reg.slots| == |ram.reg.slots|
    ensures ram.reg.slots[i].Occupied()
    ensures PlanOf(cfg, ram, op).next.reg.slots[i].timings == ram.reg.slots[i].timings
  {
    assert SlotSound(cfg, ram.reg.nextId, ram.reg.slots[i]);
  }

  lemma {:induction false} PlanShape(cfg: Config, ram: Ram, op: Op)
    requires Sound(cfg, ram.reg) && PlanOf(cfg, ram, op).Write?
    ensures var plan := PlanOf(cfg, ram, op);
            && |plan.next.reg.slots| == |ram.reg.slots| && plan.payload < |ram.reg.slots|
            && (!Relearn(ram, op) && plan.payload >= 0 ==> !ram.reg.slots[plan.payload].Occupied())
            && plan.next.readOnly == false && plan.next.fault == (if op.FactoryReset? then NoFault else ram.fault)
  {
    hide NextRevision, Sound, ValidateName, ProjectedBytes, Occupancy;
    assert |ram.reg.slots| == cfg.maxCommands by { SoundSlots(cfg, ram.reg); }
  }

  lemma {:induction false} SoundSlots(cfg: Config, reg: Registry)
    requires Sound(cfg, reg)
    ensures |reg.slots| == cfg.maxCommands
  {
  }

  /** Records after the first `cut` saves of a write. */
  function CutRecords(cfg: Config, ram: Ram, records: Records, op: Op, cut: nat): Records {
    Saved(records, Landing(SavesOf(cfg, PlanOf(cfg, ram, op)), cut))
  }

  /** How many saves it takes until the index has landed. */
  function CommitPoint(plan: Plan): (cut: nat)
    requires plan.Write?
    ensures cut >= 1
  {
    if plan.payload >= 0 then 2 else 1
  }

  lemma {:induction false} CutRecordsAre(cfg: Config, ram: Ram, records: Records, op: Op, cut: nat)
    requires Sound(cfg, ram.reg) && PlanOf(cfg, ram, op).Write?
    ensures var plan := PlanOf(cfg, ram, op);
            var wave :=
              if plan.payload < 0 then records
              else records[PayloadKey(plan.payload) := TimingBytes(plan.next.reg.slots[plan.payload].timings)];
            var index := wave[IndexKey := IndexBytes(plan.next.reg)];
            && |SavesOf(cfg, plan)| == CommitPoint(plan) + 1
            && CutRecords(cfg, ram, records, op, cut) ==
               if cut == 0 then records
               else if cut < CommitPoint(plan) then wave
               else if cut == CommitPoint(plan) then index
               else index[HeaderKey := HeaderBytes(cfg.maxCommands)]
  {
    hide IndexBytes, HeaderBytes, TimingBytes, PlanOf;
    PlanShape(cfg, ram, op);
    var plan := PlanOf(cfg, ram, op);
    var saves := SavesOf(cfg, plan);
    var taken := Landing(saves, cut);
    if plan.payload >= 0 {
      assert saves == [Save(PayloadKey(plan.payload), TimingBytes(plan.next.reg.slots[plan.payload].timings)),
                       Save(IndexKey, IndexBytes(plan.next.reg)), Save(HeaderKey, HeaderBytes(cfg.maxCommands))];
    } else {
      assert saves == [Save(IndexKey, IndexBytes(plan.next.reg)), Save(HeaderKey, HeaderBytes(cfg.maxCommands))];
    }
    if |taken| > 0 {
      UnfoldSaved(records, taken);
      if |taken| > 1 {
        UnfoldSaved(records[taken[0].key := taken[0].data], taken[1..]);
        if |taken| > 2 {
          UnfoldSaved(records[taken[0].key := taken[0].data][taken[1].key := taken[1].data], taken[1..][1..]);
        }
      }
    }
  }

  lemma {:induction false} UnfoldSaved(records: Records, saves: seq<Save>)
    requires |saves| > 0
    ensures Saved(records, saves) == Saved(records[saves[0].key := saves[0].data], saves[1..])
    ensures |saves| == 1 ==> Saved(records, saves) == records[saves[0].key := saves[0].data]
  {
  }

  /** Once the index has landed, flash holds the new registry: the header bytes never change. */
  lemma {:induction false} CommittedInStep(cfg: Config, ram: Ram, records: Records, op: Op, cut: nat)
    requires Sound(cfg, ram.reg) && PlanOf(cfg, ram, op).Write? && CommitPoint(PlanOf(cfg, ram, op)) <= cut
    requires forall i :: 0 <= i < |ram.reg.slots| && ram.reg.slots[i].Occupied() ==>
               WaveformStored(records, i, ram.reg.slots[i])
    requires cut == CommitPoint(PlanOf(cfg, ram, op)) ==>
               HeaderKey in records && records[HeaderKey] == HeaderBytes(cfg.maxCommands)
    ensures InStep(cfg, CutRecords(cfg, ram, records, op, cut), PlanOf(cfg, ram, op).next.reg)
  {
    hide IndexBytes, HeaderBytes, TimingBytes;
    var plan := PlanOf(cfg, ram, op);
    var after := CutRecords(cfg, ram, records, op, cut);
    CutRecordsAre(cfg, ram, records, op, cut);
    PlanShape(cfg, ram, op);
    forall i | 0 <= i < |plan.next.reg.slots| && plan.next.reg.slots[i].Occupied()
      ensures WaveformStored(after, i, plan.next.reg.slots[i])
    {
      if i != plan.payload {
        WaveformsKept(cfg, ram, op, i);
        assert WaveformStored(records, i, ram.reg.slots[i]);
      }
    }
  }

  /** Before the index lands, a write to a free slot is invisible. */
  lemma {:induction false} UncommittedInStep(cfg: Config, ram: Ram, records: Records, op: Op, cut: nat)
    requires Sound(cfg, ram.reg) && PlanOf(cfg, ram, op).Write? && cut < CommitPoint(PlanOf(cfg, ram, op))
    requires InStep(cfg, records, ram.reg)
    requires cut == 0 || !Relearn(ram, op)
    ensures InStep(cfg, CutRecords(cfg, ram, records, op, cut), ram.reg)
  {
    hide IndexBytes, HeaderBytes, TimingBytes;
    CutRecordsAre(cfg, ram, records, op, cut);
    PlanShape(cfg, ram, op);
    var after := CutRecords(cfg, ram, records, op, cut);
    forall i | 0 <= i < |ram.reg.slots| && ram.reg.slots[i].Occupied()
      ensures WaveformStored(after, i, ram.reg.slots[i])
    {
      assert WaveformStored(records, i, ram.reg.slots[i]);
    }
  }

  /**
   * Cut power after any number of saves of any write but a relearn: the next boot is clean and finds
   * exactly the old registry or exactly the new one, and the index save alone decides which.
   */
  lemma {:induction false} CrashAtomicity(cfg: Config, ram: Ram, records: Records, op: Op, cut: nat, minted: BridgeId,
                                          landed: nat)
    requires Sound(cfg, ram.reg) && InStep(cfg, records, ram.reg)
    requires PlanOf(cfg, ram, op).Write? && !Relearn(ram, op)
    ensures var plan := PlanOf(cfg, ram, op);
            var survivor := if cut < CommitPoint(plan) then ram.reg else plan.next.reg;
            var after := CutRecords(cfg, ram, records, op, cut);
            && InStep(cfg, after, survivor)
            && Reboot(cfg, after, minted, landed) ==
               Started(CleanReport(cfg, survivor), Ram(survivor, false, NoFault), after)
  {
    hide IndexBytes, HeaderBytes, TimingBytes, Begin, Sound;
    var plan := PlanOf(cfg, ram, op);
    var after := CutRecords(cfg, ram, records, op, cut);
    if cut < CommitPoint(plan) {
      UncommittedInStep(cfg, ram, records, op, cut);
      RoundTrip(cfg, after, ram.reg, minted, landed);
    } else {
      CommittedInStep(cfg, ram, records, op, cut);
      PlanKeepsSound(cfg, ram, op);
      RoundTrip(cfg, after, plan.next.reg, minted, landed);
    }
  }

  // ---- One unreadable waveform --------------------------------------------------------------

  lemma {:induction false} OneDamagedTally(fates: seq<SlotFate>, slots: seq<Command>, s: nat, n: nat)
    requires n <= |fates| == |slots| && s < |slots| && fates[s].Damaged? && slots[s].Occupied()
    requires forall i :: 0 <= i < |slots| && i != s ==> fates[i] == CleanFate(slots[i])
    ensures var t := TallyOf(fates, n);
            var lost := if n <= s then 0 else 1;
            t.payloadFaults == lost && t.loaded + lost == Occupancy(slots, n) && t.unfittable == 0
  {
    if n != 0 {
      OneDamagedTally(fates, slots, s, n - 1);
    }
  }

  /** The boot of a device that lost exactly the waveform of slot `s`. */
  ghost predicate LostExactly(cfg: Config, reg: Registry, s: nat, started: Started)
    requires s < |reg.slots|
  {
    && started.ram == Ram(reg.(slots := reg.slots[s := FREE]), true, PayloadInvalid)
    && started.report.readOnly && started.report.fault == PayloadInvalid
    && started.report.payloadFaults == 1 && started.report.loaded + 1 == Count(reg.slots)
    && started.report.faultSlot == s && started.report.faultName == reg.slots[s].name
    && started.report.droppedUnfittable == 0
  }

  lemma {:induction false} OneDamagedStart(cfg: Config, fates: seq<SlotFate>, reg: Registry, s: nat)
    requires |fates| == |reg.slots| == cfg.maxCommands && s < |reg.slots| && reg.slots[s].Occupied()
    requires fates[s].Damaged?
    requires forall i :: 0 <= i < |reg.slots| && i != s ==> fates[i] == CleanFate(reg.slots[i])
    requires forall i :: 0 <= i < |reg.slots| && !reg.slots[i].Occupied() ==> reg.slots[i] == FREE
    ensures FirstDamaged(fates) == s && TallyOf(fates, |fates|).payloadFaults == 1
    ensures TallyOf(fates, |fates|).loaded + 1 == Count(reg.slots) && TallyOf(fates, |fates|).unfittable == 0
    ensures Filled(fates, EmptySlots(cfg)) == reg.slots[s := FREE]
  {
    OneDamagedTally(fates, reg.slots, s, |fates|);
    assert forall i :: 0 <= i < |fates| && i != s ==> !fates[i].Damaged?;
    assert FirstDamaged(fates) >= 0;
  }

  lemma {:induction false} OneDamaged(cfg: Config, records: Records, rows: seq<Row>, reg: Registry, s: nat,
                                      started: Started)
    requires Sound(cfg, reg) && RowsMatchBut(rows, reg.slots, s) && s < |reg.slots| && reg.slots[s].Occupied()
    requires forall i :: 0 <= i < |reg.slots| && i != s && reg.slots[i].Occupied() ==>
               WaveformStored(records, i, reg.slots[i])
    requires FateOf(cfg, records, s, rows[s]) == Damaged(reg.slots[s].name)
    requires BootedAs(cfg, started, reg, Blank(cfg), Fates(cfg, records, rows), records)
    ensures LostExactly(cfg, reg, s, started)
  {
    hide IndexBytes, HeaderBytes, TimingBytes, FateOf, TallyOf;
    RowsLoad(cfg, records, rows, reg, s);
    OneDamagedStart(cfg, Fates(cfg, records, rows), reg, s);
  }

  /** Two waveforms the stored row cannot tell apart. */
  predicate Collides(a: seq<i32>, b: seq<i32>) {
    |a| == |b| && TimingsCrc(a) == TimingsCrc(b)
  }

  lemma {:induction false} OverwrittenRow(cfg: Config, records: Records, row: Row, s: nat, c: Command,
                                          timings: seq<i32>)
    requires RowMatches(row, c) && c.Occupied() && c.name != [] && 1 <= |c.timings| <= cfg.maxPulses
    requires s < cfg.maxCommands && PayloadKey(s) in records && records[PayloadKey(s)] == TimingBytes(timings)
    ensures FateOf(cfg, records, s, row) ==
            if Collides(c.timings, timings) then Loaded(c.(timings := timings)) else Damaged(c.name)
  {
    hide TimingsCrc, TimingBytes, TimingsOf;
    TimingsRoundTrip(timings);
  }

  /**
   * The waveform of slot `s` was overwritten by `heard` while the index still describes the command
   * it had: that command is reported lost, unless the two waveforms collide, when the old row
   * silently adopts the new waveform.
   */
  ghost predicate Torn(cfg: Config, reg: Registry, s: nat, heard: seq<i32>, started: Started)
    requires s < |reg.slots|
  {
    if Collides(reg.slots[s].timings, heard) then
      started.ram == Ram(reg.(slots := reg.slots[s := reg.slots[s].(timings := heard)]), false, NoFault)
    else LostExactly(cfg, reg, s, started)
  }

  /**
   * A relearn writes its waveform over the old one before the index. Only a cut between the two is
   * not atomic, and it leaves every other command alone.
   */
  lemma {:induction false} RelearnConfined(cfg: Config, ram: Ram, records: Records, c: Command, cut: nat,
                                           minted: BridgeId, landed: nat)
    requires Sound(cfg, ram.reg) && InStep(cfg, records, ram.reg)
    requires PutPlan(cfg, ram, c).Write? && First(ram.reg.slots, ByName(c.name)) >= 0
    ensures var after := CutRecords(cfg, ram, records, Put(c), cut);
            var started := Reboot(cfg, after, minted, landed);
            && started.records == after
            && (cut == 0 ==> started.ram == Ram(ram.reg, false, NoFault))
            && (cut == 1 ==> Torn(cfg, ram.reg, First(ram.reg.slots, ByName(c.name)), c.timings, started))
            && (cut >= 2 ==> started.ram == Ram(PutPlan(cfg, ram, c).next.reg, false, NoFault))
  {
    hide IndexBytes, HeaderBytes, TimingBytes, Begin, TimingsCrc;
    var plan := PutPlan(cfg, ram, c);
    var after := CutRecords(cfg, ram, records, Put(c), cut);
    CutRecordsAre(cfg, ram, records, Put(c), cut);
    PlanShape(cfg, ram, Put(c));
    if cut == 0 {
      RoundTrip(cfg, after, ram.reg, minted, landed);
    } else if cut >= 2 {
      CommittedInStep(cfg, ram, records, Put(c), cut);
      PlanKeepsSound(cfg, ram, Put(c));
      RoundTrip(cfg, after, plan.next.reg, minted, landed);
    } else {
      forall i | 0 <= i < |ram.reg.slots| && i != plan.payload && ram.reg.slots[i].Occupied()
        ensures WaveformStored(after, i, ram.reg.slots[i])
      {
        assert WaveformStored(records, i, ram.reg.slots[i]);
      }
      TornWaveform(cfg, after, ram.reg, plan.payload, c.timings, minted, landed);
    }
  }

  lemma {:induction false} TornWaveform(cfg: Config, records: Records, reg: Registry, s: nat, heard: seq<i32>,
                                        minted: BridgeId, landed: nat)
    requires Sound(cfg, reg) && Described(cfg, records, reg) && s < |reg.slots| && reg.slots[s].Occupied()
    requires forall i :: 0 <= i < |reg.slots| && i != s && reg.slots[i].Occupied() ==>
               WaveformStored(records, i, reg.slots[i])
    requires PayloadKey(s) in records && records[PayloadKey(s)] == TimingBytes(heard)
    ensures var started := Reboot(cfg, records, minted, landed);
            started.records == records && Torn(cfg, reg, s, heard, started)
  {
    hide IndexBytes, HeaderBytes, TimingBytes, Begin, TallyOf, TimingsCrc;
    SoundIsStorable(cfg, reg);
    var rows := DescribedBoot(cfg, records, reg, Blank(cfg), minted, landed);
    assert SlotSound(cfg, reg.nextId, reg.slots[s]);
    OverwrittenRow(cfg, records, rows[s], s, reg.slots[s], heard);
    if Collides(reg.slots[s].timings, heard) {
      RowsLoad(cfg, records, rows, reg, s);
      CleanStart(cfg, Fates(cfg, records, rows), reg.slots[s := reg.slots[s].(timings := heard)]);
    } else {
      OneDamaged(cfg, records, rows, reg, s, Reboot(cfg, records, minted, landed));
    }
  }

  // ---- Damaged records ----------------------------------------------------------------------

  /**
   * A damaged header is refused before anything else is read. The one damage its checksum does not see
   * falls on bytes the boot does not use, and changes nothing.
   */
  lemma {:induction false} HeaderDamageDetected(cfg: Config, records: Records, reg: Registry, damaged: seq<byte>,
                                                minted: BridgeId, landed: nat)
    requires Described(cfg, records, reg) && Burst(HeaderBytes(cfg.maxCommands), damaged)
    ensures var after := records[HeaderKey := damaged];
            var started := Reboot(cfg, after, minted, landed);
            && started.records == after
            && (damaged != BlindSpot(HeaderBody(cfg.maxCommands)) ==>
                  && started.ram == Ram(Blank(cfg), true, HeaderInvalid)
                  && started.report.readOnly && started.report.headerInvalid && started.report.loaded == 0)
            && (damaged == BlindSpot(HeaderBody(cfg.maxCommands)) ==>
                  && started.ram == Reboot(cfg, records, minted, landed).ram
                  && started.report == Reboot(cfg, records, minted, landed).report)
  {
    hide IndexBytes, Crc16, FateOf, TallyOf, RowAt, Filled, FirstDamaged, HeaderBody, SealIntact, BlindSpot;
    var body, after := HeaderBody(cfg.maxCommands), records[HeaderKey := damaged];
    SealSeesAllButOne(body, damaged);
    SealedIsIntact(body);
    if damaged == BlindSpot(body) {
      BlindHeaderParses(cfg.maxCommands);
      SameFates(cfg, records, after, damaged);
    }
  }

  /** The blind spot of the header lies in its reserved bytes and its checksum. */
  lemma {:induction false} BlindHeaderParses(slotCount: byte)
    ensures ParseHeader(BlindSpot(HeaderBody(slotCount))) == ParseHeader(HeaderBytes(slotCount))
  {
    hide Crc16, ByteXor, FromLe16;
    var a, b := BlindSpot(HeaderBody(slotCount)), HeaderBytes(slotCount);
    assert a[..2] == b[..2] && a[4..6] == b[4..6];
  }

  lemma {:induction false} SameFates(cfg: Config, records: Records, after: Records, header: seq<byte>)
    requires after == records[HeaderKey := header]
    ensures forall rows: seq<Row> :: Fates(cfg, after, rows) == Fates(cfg, records, rows)
    ensures Load(after, IndexKey, IndexBytesFor(cfg.maxCommands)) ==
            Load(records, IndexKey, IndexBytesFor(cfg.maxCommands))
  {
    forall rows: seq<Row>
      ensures Fates(cfg, after, rows) == Fates(cfg, records, rows)
    {
      forall i | 0 <= i < |rows|
        ensures FateOf(cfg, after, i, rows[i]) == FateOf(cfg, records, i, rows[i])
      {
        hide TimingsOf, TimingsCrc;
      }
    }
  }

  /**
   * A damaged index is refused. The one damage its checksum does not see falls on the waveform checksum of
   * the last slot: a command there is reported lost, exactly as if its waveform were damaged, and if the
   * slot is free nothing changes.
   */
  lemma {:induction false} IndexDamageDetected(cfg: Config, records: Records, reg: Registry, damaged: seq<byte>,
                                               minted: BridgeId, landed: nat)
    requires Sound(cfg, reg) && Described(cfg, records, reg) && Burst(IndexBytes(reg), damaged)
    ensures var after, last := records[IndexKey := damaged], cfg.maxCommands - 1;
            var started := Reboot(cfg, after, minted, landed);
            && started.records == after
            && (damaged != BlindSpot(IndexBody(reg)) ==>
                  && started.ram == Ram(Blank(cfg), true, IndexInvalid)
                  && started.report.readOnly && started.report.loaded == 0)
            && (damaged == BlindSpot(IndexBody(reg)) && InStep(cfg, records, reg) ==>
                  if reg.slots[last].Occupied() then LostExactly(cfg, reg, last, started)
                  else started.ram == Ram(reg, false, NoFault) && started.report == CleanReport(cfg, reg))
  {
    hide HeaderBody, IndexBody, Crc16, FateOf, TallyOf, RowAt, Burst, SealIntact, BlindSpot, Filled, FirstDamaged,
         FromLe32, LostExactly, InStep;
    HeaderRoundTrip(cfg.maxCommands);
    SealedIsIntact(HeaderBody(cfg.maxCommands));
    SealSeesAllButOne(IndexBody(reg), damaged);
    if damaged == BlindSpot(IndexBody(reg)) && InStep(cfg, records, reg) {
      BlindIndexBoots(cfg, records, reg, minted, landed);
    }
  }

  /** The row the blind spot leaves: the last one, with another waveform checksum. */
  lemma {:induction false} BlindRows(reg: Registry, n: nat)
    requires n == |reg.slots| >= 1
    ensures var raw := BlindSpot(IndexBody(reg));
            && raw[..META_BYTES] == MetaBytes(reg)
            && (forall i :: 0 <= i < n - 1 ==> RowAt(raw, i) == RowAt(IndexBytes(reg), i))
            && var row, was := RowAt(raw, n - 1), RowAt(IndexBytes(reg), n - 1);
               row == was.(payloadCrc := row.payloadCrc) && row.payloadCrc != was.payloadCrc
  {
    hide Crc16, ByteXor, ParseRow, IndexBody, FromLe16;
    var raw, index := BlindSpot(IndexBody(reg)), IndexBytes(reg);
    var at := META_BYTES + (n - 1) * SLOT_BYTES;
    XorChanges(index[at + 43], BLIND_LAST);
    IndexStarts(reg);
    assert raw[..META_BYTES] == index[..META_BYTES];
    forall i | 0 <= i < n - 1
      ensures RowAt(raw, i) == RowAt(index, i)
    {
      var from := META_BYTES + i * SLOT_BYTES;
      assert raw[from..from + SLOT_BYTES] == index[from..from + SLOT_BYTES];
    }
    LastByteOfRow(raw[at..at + SLOT_BYTES], index[at..at + SLOT_BYTES]);
  }

  lemma {:induction false} IndexStarts(reg: Registry)
    ensures IndexBytes(reg)[..META_BYTES] == MetaBytes(reg)
  {
    hide Crc16;
  }

  lemma {:induction false} LastByteOfRow(a: seq<byte>, b: seq<byte>)
    requires |a| == |b| == SLOT_BYTES && a[..43] == b[..43] && a[43] != b[43]
    ensures ParseRow(a) == ParseRow(b).(payloadCrc := ParseRow(a).payloadCrc)
    ensures ParseRow(a).payloadCrc != ParseRow(b).payloadCrc
  {
    hide FromLe16, FromLe32, NameOf;
    var c := a[..43];
    assert a[..24] == c[..24] == b[..24] && a[24..28] == c[24..28] == b[24..28];
    assert a[28..30] == c[28..30] == b[28..30] && a[30..32] == c[30..32] == b[30..32];
    assert a[32..36] == c[32..36] == b[32..36] && a[36..40] == c[36..40] == b[36..40] && a[40] == c[40] == b[40];
    var crc, was := a[42..44], b[42..44];
    assert crc[1] != was[1];
    if FromLe16(crc) == FromLe16(was) {
      FromLe16Injective(crc, was);
    }
  }

  lemma {:induction false} BlindIndexBoots(cfg: Config, records: Records, reg: Registry, minted: BridgeId, landed: nat)
    requires Sound(cfg, reg) && InStep(cfg, records, reg) && IndexBody(reg) != []
    requires SealIntact(BlindSpot(IndexBody(reg)))
    ensures var after, last := records[IndexKey := BlindSpot(IndexBody(reg))], cfg.maxCommands - 1;
            var started := Reboot(cfg, after, minted, landed);
            if reg.slots[last].Occupied() then LostExactly(cfg, reg, last, started)
            else started.ram == Ram(reg, false, NoFault) && started.report == CleanReport(cfg, reg)
  {
    hide IndexBytes, HeaderBytes, TimingBytes, Begin, TallyOf, FateOf, RowAt, BlindSpot, IndexBody, SealIntact;
    var raw, last := BlindSpot(IndexBody(reg)), cfg.maxCommands - 1;
    var after := records[IndexKey := raw];
    var rows := Rows(raw, cfg.maxCommands);
    SoundIsStorable(cfg, reg);
    BlindRows(reg, cfg.maxCommands);
    IntactBoot(cfg, after, raw, reg, Blank(cfg), minted, landed);
    RowsRoundTrip(reg);
    forall i | 0 <= i < |reg.slots| && i != last
      ensures RowMatches(rows[i], reg.slots[i])
    {
      assert Rows(IndexBytes(reg), cfg.maxCommands)[i] == rows[i];
    }
    forall i | 0 <= i < |reg.slots| && reg.slots[i].Occupied()
      ensures WaveformStored(after, i, reg.slots[i])
    {
      assert WaveformStored(records, i, reg.slots[i]);
    }
    assert SlotSound(cfg, reg.nextId, reg.slots[last]);
    assert RowMatches(RowAt(IndexBytes(reg), last), reg.slots[last]);
    OtherChecksum(cfg, after, last, rows[last], RowAt(IndexBytes(reg), last), reg.slots[last]);
    if reg.slots[last].Occupied() {
      OneDamaged(cfg, after, rows, reg, last, Reboot(cfg, after, minted, landed));
    } else {
      RowsLoad(cfg, after, rows, reg, last);
      CleanStart(cfg, Fates(cfg, after, rows), reg.slots);
    }
  }

  /** A row whose waveform checksum alone is wrong. */
  lemma {:induction false} OtherChecksum(cfg: Config, records: Records, s: nat, row: Row, was: Row, c: Command)
    requires RowMatches(was, c) && row == was.(payloadCrc := row.payloadCrc) && row.payloadCrc != was.payloadCrc
    requires s < cfg.maxCommands
    requires c.Occupied() ==> WaveformStored(records, s, c) && c.name != [] && 1 <= |c.timings| <= cfg.maxPulses
    ensures FateOf(cfg, records, s, row) == if c.Occupied() then Damaged(c.name) else Vacant
  {
    hide TimingsCrc, TimingBytes, TimingsOf;
    if c.Occupied() {
      TimingsRoundTrip(c.timings);
    }
  }

  lemma {:induction false} BurstFate(cfg: Config, records: Records, row: Row, s: nat, c: Command, damaged: seq<byte>)
    requires RowMatches(row, c) && c.Occupied() && c.name != [] && 1 <= |c.timings| <= cfg.maxPulses
    requires s < cfg.maxCommands && PayloadKey(s) in records && records[PayloadKey(s)] == damaged
    requires Burst(TimingBytes(c.timings), damaged)
    ensures FateOf(cfg, records, s, row) == Damaged(c.name)
  {
    hide Crc16, TimingBytes, TimingsOf;
    BytesRoundTrip(damaged);
    BurstDetected(TimingBytes(c.timings), damaged);
  }

  /** A damaged waveform costs that command only, and is named in the report. */
  lemma {:induction false} WaveformDamageDetected(cfg: Config, records: Records, reg: Registry, s: nat,
                                                  damaged: seq<byte>, minted: BridgeId, landed: nat)
    requires Sound(cfg, reg) && InStep(cfg, records, reg) && s < |reg.slots| && reg.slots[s].Occupied()
    requires Burst(TimingBytes(reg.slots[s].timings), damaged)
    ensures var after := records[PayloadKey(s) := damaged];
            && LostExactly(cfg, reg, s, Reboot(cfg, after, minted, landed))
            && Reboot(cfg, after, minted, landed).records == after
  {
    hide IndexBytes, HeaderBytes, TimingBytes, Begin, TallyOf, FateOf, Burst;
    var after := records[PayloadKey(s) := damaged];
    SoundIsStorable(cfg, reg);
    var rows := DescribedBoot(cfg, after, reg, Blank(cfg), minted, landed);
    assert SlotSound(cfg, reg.nextId, reg.slots[s]);
    BurstFate(cfg, after, rows[s], s, reg.slots[s], damaged);
    forall i | 0 <= i < |reg.slots| && i != s && reg.slots[i].Occupied()
      ensures WaveformStored(after, i, reg.slots[i])
    {
      assert WaveformStored(records, i, reg.slots[i]);
    }
    OneDamaged(cfg, after, rows, reg, s, Reboot(cfg, after, minted, landed));
  }

  lemma {:induction false} BytesRoundTrip(b: seq<byte>)
    requires |b| % 4 == 0
    ensures TimingBytes(TimingsOf(b)) == b
  {
    if b != [] {
      BytesRoundTrip(b[4..]);
      var v := FromLe32(b[..4]);
      Le32RoundTrip(v);
      FromLeInjective(Le32(v), b[..4]);
      assert Unsigned(Signed(v)) == v;
      assert b == b[..4] + b[4..];
      assert TimingsOf(b)[1..] == TimingsOf(b[4..]);
    }
  }

  /** Every waveform has another of its length that a stored row cannot tell from it. */
  lemma {:induction false} EveryWaveformCollides(timings: seq<i32>) returns (other: seq<i32>)
    requires timings != []
    ensures Collides(timings, other) && other != timings
  {
    hide Crc16, TimingBytes, TimingsOf;
    var bytes := EveryRecordCollides(TimingBytes(timings));
    BytesRoundTrip(bytes);
    other := TimingsOf(bytes);
  }

  // ---- A changed configuration --------------------------------------------------------------

  /**
   * The index save is the commit point only while `max_commands` is what the header on flash says.
   * Cut power between index and header: the boot is clean, and finds the new registry, if and only
   * if the slot count is unchanged; otherwise the index no longer has the stated length and the
   * session sees no command at all.
   */
  lemma {:induction false} HeaderCutNeedsSameSlotCount(cfg: Config, ram: Ram, records: Records, op: Op,
                                                       storedCount: byte, minted: BridgeId, landed: nat)
    requires Sound(cfg, ram.reg) && PlanOf(cfg, ram, op).Write? && storedCount >= 1
    requires HeaderKey in records && records[HeaderKey] == HeaderBytes(storedCount)
    requires forall i :: 0 <= i < |ram.reg.slots| && ram.reg.slots[i].Occupied() ==>
               WaveformStored(records, i, ram.reg.slots[i])
    ensures var plan := PlanOf(cfg, ram, op);
            var started := Reboot(cfg, CutRecords(cfg, ram, records, op, CommitPoint(plan)), minted, landed);
            started.ram == if storedCount == cfg.maxCommands then Ram(plan.next.reg, false, NoFault)
                           else Ram(Blank(cfg), true, IndexInvalid)
  {
    hide *;
    var plan := PlanOf(cfg, ram, op);
    var cut := CommitPoint(plan);
    var after := CutRecords(cfg, ram, records, op, cut);
    PlanKeepsSound(cfg, ram, op);
    if storedCount == cfg.maxCommands {
      CommittedInStep(cfg, ram, records, op, cut);
      RoundTrip(cfg, after, plan.next.reg, minted, landed);
    } else {
      CutRecordsAre(cfg, ram, records, op, cut);
      PlanShape(cfg, ram, op);
      SoundSlots(cfg, ram.reg);
      WrongLengthBoots(cfg, after, storedCount, plan.next.reg, minted, landed);
    }
  }

  /** An index of another length than the header states is no index. */
  lemma {:induction false} WrongLengthBoots(cfg: Config, records: Records, storedCount: byte, reg: Registry,
                                            minted: BridgeId, landed: nat)
    requires storedCount >= 1 && storedCount != cfg.maxCommands && |reg.slots| == cfg.maxCommands
    requires HeaderKey in records && records[HeaderKey] == HeaderBytes(storedCount)
    requires IndexKey in records && records[IndexKey] == IndexBytes(reg)
    ensures Reboot(cfg, records, minted, landed).ram == Ram(Blank(cfg), true, IndexInvalid)
  {
    hide IndexBytes;
    HeaderRoundTrip(storedCount);
    SealedIsIntact(HeaderBody(storedCount));
  }

  /** What a configuration can still hold of slot `i`. */
  predicate StillFits(cfg: Config, i: nat, c: Command) {
    i < cfg.maxCommands && |c.timings| <= cfg.maxPulses
  }

  /** What a boot under other limits makes of the slots that were stored. */
  function Remaining(other: Config, slots: seq<Command>): (r: seq<Command>)
    ensures |r| == other.maxCommands
  {
    seq(other.maxCommands, i requires 0 <= i =>
      if i < |slots| && StillFits(other, i, slots[i]) then slots[i] else FREE)
  }

  /**
   * Booting under other limits loads exactly the commands that still fit and writes nothing, so the
   * old limits bring everything back.
   */
  lemma {:induction false} OtherLimitsLoseNothing(cfg: Config, other: Config, records: Records, reg: Registry,
                                                  minted: BridgeId, landed: nat)
    requires Sound(cfg, reg) && InStep(cfg, records, reg)
    ensures var started := Reboot(other, records, minted, landed);
            && started.records == records && !started.ram.readOnly
            && started.ram.reg == reg.(slots := Remaining(other, reg.slots))
            && started.report.loaded + started.report.droppedUnfittable == Count(reg.slots)
            && Reboot(cfg, started.records, minted, landed).ram == Ram(reg, false, NoFault)
  {
    hide IndexBytes, HeaderBytes, TimingBytes, Begin, FateOf, TallyOf;
    RoundTrip(cfg, records, reg, minted, landed);
    SoundIsStorable(cfg, reg);
    var rows := ForeignBoot(cfg, other, records, reg, minted, landed);
    ForeignRows(cfg, other, records, rows, reg);
    var fates := Fates(other, records, rows);
    SplitTally(fates, reg.slots, |fates|);
    assert Filled(fates, EmptySlots(other)) == Remaining(other, reg.slots);
  }

  /** The fate of a stored row whose waveform is intact, under any limits. */
  function ForeignFate(other: Config, i: nat, c: Command): SlotFate {
    if c.Occupied() && !StillFits(other, i, c) then Unfit else CleanFate(c)
  }

  lemma {:induction false} ForeignRows(cfg: Config, other: Config, records: Records, rows: seq<Row>, reg: Registry)
    requires Sound(cfg, reg) && RowsMatch(rows, reg.slots)
    requires forall i :: 0 <= i < |reg.slots| && reg.slots[i].Occupied() ==> WaveformStored(records, i, reg.slots[i])
    ensures forall i :: 0 <= i < |rows| ==> Fates(other, records, rows)[i] == ForeignFate(other, i, reg.slots[i])
    ensures forall i :: 0 <= i < |rows| && !reg.slots[i].Occupied() ==> reg.slots[i] == FREE
  {
    hide TimingBytes, FateOf;
    forall i | 0 <= i < |rows|
      ensures FateOf(other, records, i, rows[i]) == ForeignFate(other, i, reg.slots[i])
      ensures !reg.slots[i].Occupied() ==> reg.slots[i] == FREE
    {
      assert SlotSound(cfg, reg.nextId, reg.slots[i]);
      ForeignRow(other, records, i, rows[i], reg.slots[i]);
    }
  }

  lemma {:induction false} ForeignRow(other: Config, records: Records, i: nat, row: Row, c: Command)
    requires RowMatches(row, c)
    requires c.Occupied() ==> c.name != [] && 1 <= |c.timings| < 0x1_0000 && WaveformStored(records, i, c)
    ensures FateOf(other, records, i, row) == ForeignFate(other, i, c)
  {
    hide TimingsCrc, TimingBytes, TimingsOf;
    if c.Occupied() {
      TimingsRoundTrip(c.timings);
    }
  }

  lemma {:induction false} ForeignBoot(cfg: Config, other: Config, records: Records, reg: Registry, minted: BridgeId,
                                       landed: nat)
    returns (rows: seq<Row>)
    requires |reg.slots| == cfg.maxCommands && forall i :: 0 <= i < |reg.slots| ==> Storable(reg.slots[i])
    requires Described(cfg, records, reg)
    ensures RowsMatch(rows, reg.slots)
    ensures var started := Reboot(other, records, minted, landed);
            var t := TallyOf(Fates(other, records, rows), |rows|);
            && started.records == records && (started.ram.readOnly <==> t.payloadFaults > 0)
            && started.ram.reg == reg.(slots := Filled(Fates(other, records, rows), EmptySlots(other)))
            && started.report.loaded == t.loaded && started.report.droppedUnfittable == t.unfittable
  {
    hide FateOf, TallyOf, RowAt, Crc16, HeaderBody, IndexBody, FromLe32, Filled, FirstDamaged;
    HeaderRoundTrip(cfg.maxCommands);
    SealedIsIntact(HeaderBody(cfg.maxCommands));
    SealedIsIntact(IndexBody(reg));
    MetaRoundTrip(reg);
    RowsRoundTrip(reg);
    rows := Rows(IndexBytes(reg), cfg.maxCommands);
  }

  lemma {:induction false} SplitTally(fates: seq<SlotFate>, slots: seq<Command>, n: nat)
    requires n <= |fates| == |slots|
    requires forall i :: 0 <= i < |slots| ==>
               fates[i] == CleanFate(slots[i]) || (slots[i].Occupied() && fates[i] == Unfit)
    ensures TallyOf(fates, n).payloadFaults == 0
    ensures TallyOf(fates, n).loaded + TallyOf(fates, n).unfittable == Occupancy(slots, n)
  {
    if n != 0 {
      SplitTally(fates, slots, n - 1);
    }
  }

  // ---- Accounting ---------------------------------------------------------------------------

  /** Stored rows that name a command. */
  function OccupiedRows(rows: seq<Row>, n: nat): nat
    requires n <= |rows|
  {
    if n == 0 then 0 else OccupiedRows(rows, n - 1) + (if rows[n - 1].Vacant() then 0 else 1)
  }

  lemma {:induction false} FateAccounts(cfg: Config, records: Records, i: nat, row: Row)
    ensures FateOf(cfg, records, i, row).Vacant? <==> row.Vacant()
  {
    hide TimingsOf, TimingsCrc;
  }

  lemma {:induction false} TallyAccounts(cfg: Config, records: Records, rows: seq<Row>, n: nat)
    requires n <= |rows|
    ensures var t := TallyOf(Fates(cfg, records, rows), n);
            t.loaded + t.payloadFaults + t.unfittable == OccupiedRows(rows, n)
  {
    hide FateOf;
    if n != 0 {
      FateAccounts(cfg, records, n - 1, rows[n - 1]);
      TallyAccounts(cfg, records, rows, n - 1);
    }
  }

  /** Whatever flash holds, every occupied row of an intact index is loaded, reported lost, or left out. */
  lemma {:induction false} LoadAccounts(cfg: Config, records: Records, minted: BridgeId, landed: nat)
    requires Load(records, HeaderKey, HEADER_BYTES).Some?
    ensures var started := Reboot(cfg, records, minted, landed);
            var h := ParseHeader(records[HeaderKey]);
            && started.records == records
            && (started.ram.readOnly <==> started.ram.fault != NoFault)
            && (started.ram.fault == NoFault || started.ram.fault == PayloadInvalid ==>
                  && IndexKey in records && |records[IndexKey]| == IndexBytesFor(h.slotCount)
                  && started.report.loaded + started.report.payloadFaults + started.report.droppedUnfittable ==
                     OccupiedRows(Rows(records[IndexKey], h.slotCount), h.slotCount))
  {
    hide FateOf, TallyOf, OccupiedRows, SealIntact, RowAt, FromLe32, FromLe16, Filled, FirstDamaged;
    var h := ParseHeader(records[HeaderKey]);
    if IndexKey in records && |records[IndexKey]| == IndexBytesFor(h.slotCount) {
      TallyAccounts(cfg, records, Rows(records[IndexKey], h.slotCount), h.slotCount);
    }
  }
}

/**
 * The storage budget, measured on the records themselves: what the firmware adds up from slot counts and
 * pulse counts is what the records of the registry take on flash.
 */
module Budget {
  import opened Bytes
  import opened RegistryModel
  import opened Layout
  import opened Flash
  import opened Recovery
  import opened Runs

  function RecordLength(records: Records, key: Key): nat {
    if key in records then |records[key]| else 0
  }

  /** The lengths of the waveform records of the occupied slots among the first `n`. */
  function WaveformLengths(records: Records, slots: seq<Command>, n: nat): nat
    requires n <= |slots|
  {
    if n == 0 then 0
    else
      WaveformLengths(records, slots, n - 1) +
      (if slots[n - 1].Occupied() then RecordLength(records, PayloadKey(n - 1)) else 0)
  }

  /** The bytes on flash that belong to a registry with these slots. */
  function BytesOnFlash(records: Records, slots: seq<Command>): nat {
    RecordLength(records, HeaderKey) + RecordLength(records, IndexKey) + WaveformLengths(records, slots, |slots|)
  }

  lemma {:induction false} WaveformsTake(records: Records, slots: seq<Command>, n: nat)
    requires n <= |slots|
    requires forall i :: 0 <= i < n && slots[i].Occupied() ==> WaveformStored(records, i, slots[i])
    ensures WaveformLengths(records, slots, n) == PayloadBytes(slots, -1, n)
  {
    if n != 0 {
      WaveformsTake(records, slots, n - 1);
    }
  }

  lemma {:induction false} InStepTakes(cfg: Config, records: Records, reg: Registry)
    requires InStep(cfg, records, reg) && |reg.slots| == cfg.maxCommands
    ensures BytesOnFlash(records, reg.slots) == UsedBytes(reg.slots)
  {
    hide IndexBytes, HeaderBytes, TimingBytes;
    WaveformsTake(records, reg.slots, |reg.slots|);
  }

  /** Header, index and waveforms of a stored registry fit the configured budget. */
  lemma {:induction false} FlashWithinBudget(cfg: Config, records: Records, reg: Registry)
    requires Sound(cfg, reg) && InStep(cfg, records, reg)
    ensures BytesOnFlash(records, reg.slots) <= cfg.maxBytes
  {
    hide InStep;
    InStepTakes(cfg, records, reg);
  }

  /** So every acknowledged write leaves flash within the budget. */
  lemma {:induction false} WritesStayWithinBudget(cfg: Config, ram: Ram, records: Records, op: Op, landed: nat)
    requires Sound(cfg, ram.reg) && InStep(cfg, records, ram.reg)
    requires Perform(cfg, ram, records, op, landed).result == Ok
    ensures var outcome := Perform(cfg, ram, records, op, landed);
            BytesOnFlash(outcome.records, outcome.ram.reg.slots) <= cfg.maxBytes
  {
    hide Sound, WaveformStored, Saved, SavesOf, PlanOf, BytesOnFlash, Described;
    if PlanOf(cfg, ram, op).Write? {
      var plan := PlanOf(cfg, ram, op);
      Lands(cfg, ram, op, landed);
      CommittedInStep(cfg, ram, records, op, landed);
      PlanKeepsSound(cfg, ram, op);
      FlashWithinBudget(cfg, CutRecords(cfg, ram, records, op, landed), plan.next.reg);
    } else {
      FlashWithinBudget(cfg, records, ram.reg);
    }
  }

  lemma {:induction false} Lands(cfg: Config, ram: Ram, op: Op, landed: nat)
    requires Sound(cfg, ram.reg) && PlanOf(cfg, ram, op).Write? && |SavesOf(cfg, PlanOf(cfg, ram, op))| <= landed
    ensures CommitPoint(PlanOf(cfg, ram, op)) < landed
  {
    PlanShape(cfg, ram, op);
  }

  // ---- The test before a waveform is stored -------------------------------------------------

  /** The registry once `c` sits in `slot`, but for the counters, which take no more room when they grow. */
  function With(reg: Registry, slot: nat, c: Command): Registry
    requires slot < |reg.slots|
  {
    reg.(slots := reg.slots[slot := c])
  }

  /** What flash holds once `c` has been stored there: its waveform, the index that lists it, the header. */
  function Leaving(cfg: Config, records: Records, reg: Registry, slot: nat, c: Command): Records
    requires slot < |reg.slots|
  {
    records[PayloadKey(slot) := TimingBytes(c.timings)][IndexKey := IndexBytes(With(reg, slot, c))]
           [HeaderKey := HeaderBytes(cfg.maxCommands)]
  }

  lemma {:induction false} LeavingTakes(cfg: Config, records: Records, reg: Registry, slot: nat, c: Command)
    requires InStep(cfg, records, reg) && |reg.slots| == cfg.maxCommands && slot < |reg.slots| && c.Occupied()
    ensures BytesOnFlash(Leaving(cfg, records, reg, slot, c), With(reg, slot, c).slots) ==
            ProjectedBytes(reg.slots, slot, |c.timings|)
  {
    hide IndexBytes, HeaderBytes, TimingBytes;
    var after := Leaving(cfg, records, reg, slot, c);
    forall i | 0 <= i < |reg.slots| && With(reg, slot, c).slots[i].Occupied()
      ensures WaveformStored(after, i, With(reg, slot, c).slots[i])
    {
      assert i != slot ==> WaveformStored(records, i, reg.slots[i]);
    }
    InStepTakes(cfg, after, With(reg, slot, c));
    StoringUses(reg, slot, c);
  }

  /** The slot a put goes to: the one that has the name, else the first free one. */
  function Destination(reg: Registry, name: Name): int {
    if First(reg.slots, ByName(name)) >= 0 then First(reg.slots, ByName(name)) else First(reg.slots, AnyFree)
  }

  const SMALL := "abcdefghijklmnopqrstuvwxyz"
  const LARGE := "ABCDEFGHIJKLMNOPQRSTUVWXYZ"
  const DIGITS := "0123456789"

  /** One to 23 characters a script or a log line can carry. */
  predicate Named(name: Name) {
    1 <= |name| <= 23 &&
    forall i :: 0 <= i < |name| ==>
      var c := name[i] as char;
      c in SMALL || c in LARGE || c in DIGITS || c == '_' || c == '-' || c == '.'
  }

  lemma {:induction false} SmallLetters(c: char)
    ensures c in SMALL <==> 'a' <= c <= 'z'
  {
    if 'a' <= c <= 'z' {
      assert SMALL[c as int - 'a' as int] == c;
    }
  }

  lemma {:induction false} LargeLetters(c: char)
    ensures c in LARGE <==> 'A' <= c <= 'Z'
  {
    if 'A' <= c <= 'Z' {
      assert LARGE[c as int - 'A' as int] == c;
    }
  }

  lemma {:induction false} Digits(c: char)
    ensures c in DIGITS <==> '0' <= c <= '9'
  {
    if '0' <= c <= '9' {
      assert DIGITS[c as int - '0' as int] == c;
    }
  }

  lemma {:induction false} NamesAccepted(name: Name)
    ensures ValidateName(name) == Ok <==> Named(name)
    ensures ValidateName(name) == NameEmpty <==> name == []
    ensures ValidateName(name) == NameTooLong <==> |name| > 23
  {
    hide SMALL, LARGE, DIGITS;
    forall i | 0 <= i < |name|
      ensures AllowedByte(name[i]) <==>
              var c := name[i] as char;
              c in SMALL || c in LARGE || c in DIGITS || c == '_' || c == '-' || c == '.'
    {
      SmallLetters(name[i] as char);
      LargeLetters(name[i] as char);
      Digits(name[i] as char);
    }
  }

  /** A put nothing speaks against but, perhaps, the budget. */
  ghost predicate OnlyBudgetDecides(cfg: Config, ram: Ram, c: Command) {
    && !ram.readOnly && ram.reg.restoreState == 0
    && Named(c.name) && 1 <= |c.timings| <= cfg.maxPulses
    && Destination(ram.reg, c.name) >= 0
    && (First(ram.reg.slots, ByName(c.name)) < 0 ==> ram.reg.nextId < 0xFFFF_FFFF)
  }

  /**
   * A put is refused for its size exactly when the records it would leave, with the waveform it replaces
   * gone, are more than the configured bytes.
   */
  lemma {:induction false} PutBudgetIsExact(cfg: Config, ram: Ram, records: Records, c: Command, id: u32)
    requires Sound(cfg, ram.reg) && InStep(cfg, records, ram.reg) && OnlyBudgetDecides(cfg, ram, c) && id != 0
    ensures var slot, stored := Destination(ram.reg, c.name), c.(id := id);
            PutPlan(cfg, ram, c) == Refuse(BudgetExceeded) <==>
            BytesOnFlash(Leaving(cfg, records, ram.reg, slot, stored), With(ram.reg, slot, stored).slots) > cfg.maxBytes
  {
    hide Sound, ValidateName, Named, InStep, Leaving, With, BytesOnFlash, ProjectedBytes;
    var slot, stored := Destination(ram.reg, c.name), c.(id := id);
    NamesAccepted(c.name);
    SoundSlots(cfg, ram.reg);
    LeavingTakes(cfg, records, ram.reg, slot, stored);
    if First(ram.reg.slots, ByName(c.name)) < 0 {
      StoringUses(ram.reg, slot, stored);
    }
  }

  /**
   * When a put succeeds on storage that works: exactly when nothing else speaks against it, the records it
   * leaves fit the budget, and the revision can still rise. The command then sits in its slot under the id its
   * name had, or under the counter's, which moves on; nothing else changes but the revision.
   */
  lemma {:induction false} PutSucceedsExactly(cfg: Config, ram: Ram, records: Records, c: Command, landed: nat)
    requires Sound(cfg, ram.reg) && InStep(cfg, records, ram.reg) && landed >= 3
    ensures var outcome, reg, slot := Perform(cfg, ram, records, Put(c), landed), ram.reg, Destination(ram.reg, c.name);
            var relearn := First(reg.slots, ByName(c.name)) >= 0;
            && (outcome.result == Ok <==>
                  && OnlyBudgetDecides(cfg, ram, c) && reg.revision < 0x7FFF_FFFE
                  && BytesOnFlash(Leaving(cfg, records, reg, slot, c.(id := 1)), With(reg, slot, c.(id := 1)).slots)
                     <= cfg.maxBytes)
            && (outcome.result == Ok ==>
                  var id := if relearn then reg.slots[slot].id else reg.nextId;
                  outcome.ram ==
                  ram.(reg := reg.(slots := reg.slots[slot := c.(id := id)],
                                   nextId := if relearn then reg.nextId else reg.nextId as int + 1,
                                   revision := reg.revision as int + 1)))
            && (outcome.result != Ok ==> outcome.ram == ram && outcome.records == records)
  {
    hide Sound, ValidateName, Named, InStep, Leaving, With, BytesOnFlash, ProjectedBytes, Saved, SavesOf;
    NamesAccepted(c.name);
    if PutPlan(cfg, ram, c).Write? {
      SaveCount(cfg, ram, Put(c));
      PutSaves(cfg, ram, c);
    }
    if OnlyBudgetDecides(cfg, ram, c) {
      PutBudgetIsExact(cfg, ram, records, c, 1);
    }
  }

  lemma {:induction false} PutSaves(cfg: Config, ram: Ram, c: Command)
    requires PutPlan(cfg, ram, c).Write?
    ensures CommitPoint(PutPlan(cfg, ram, c)) == 2
  {
    hide ValidateName, ProjectedBytes;
  }

  /** And an import, which always takes a free slot. */
  lemma {:induction false} ImportBudgetIsExact(cfg: Config, ram: Ram, records: Records, c: Command)
    requires Sound(cfg, ram.reg) && InStep(cfg, records, ram.reg)
    requires !ram.readOnly && ram.reg.restoreState != 0 && Named(c.name)
    requires 1 <= c.id < ram.reg.nextId && 1 <= |c.timings| <= cfg.maxPulses
    requires First(ram.reg.slots, ById(c.id)) < 0 && First(ram.reg.slots, ByName(c.name)) < 0
    requires First(ram.reg.slots, AnyFree) >= 0
    ensures var slot := First(ram.reg.slots, AnyFree);
            ImportPlan(cfg, ram, c) == Refuse(BudgetExceeded) <==>
            BytesOnFlash(Leaving(cfg, records, ram.reg, slot, c), With(ram.reg, slot, c).slots) > cfg.maxBytes
  {
    hide Sound, ValidateName, Named, InStep, Leaving, With, BytesOnFlash, ProjectedBytes;
    NamesAccepted(c.name);
    var slot := First(ram.reg.slots, AnyFree);
    SoundSlots(cfg, ram.reg);
    LeavingTakes(cfg, records, ram.reg, slot, c);
    StoringUses(ram.reg, slot, c);
  }
}

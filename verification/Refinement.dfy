/**
 * The slot array implements a map from command id to command.
 *
 * `Meaning` is the store a caller thinks of: no slots, no search order, names and budget stated
 * over the map. `OperationsRefine` shows that every operation of the slot array, with its exact
 * result code, is that operation of the map.
 */
module Refinement {
  import opened Bytes
  import opened RegistryModel

  // ---- The map ------------------------------------------------------------------------------

  function CommandsUpTo(slots: seq<Command>, n: nat): map<u32, Command>
    requires n <= |slots|
  {
    if n == 0 then map[]
    else
      var c := slots[n - 1];
      if c.Occupied() then CommandsUpTo(slots, n - 1)[c.id := c] else CommandsUpTo(slots, n - 1)
  }

  function Commands(slots: seq<Command>): map<u32, Command> {
    CommandsUpTo(slots, |slots|)
  }

  datatype View = View(bridgeId: BridgeId, nextId: u32, revision: u32, restoreState: byte, readOnly: bool,
                       commands: map<u32, Command>)

  function ViewOf(ram: Ram): View {
    View(ram.reg.bridgeId, ram.reg.nextId, ram.reg.revision, ram.reg.restoreState, ram.readOnly,
         Commands(ram.reg.slots))
  }

  ghost predicate Named(m: map<u32, Command>, name: Name) {
    exists id :: id in m && m[id].name == name
  }

  ghost function IdNamed(m: map<u32, Command>, name: Name): u32
    requires Named(m, name)
  {
    var id :| id in m && m[id].name == name;
    id
  }

  ghost function MapBytes(m: map<u32, Command>): nat {
    if m == map[] then 0
    else
      var id :| id in m;
      MapBytes(m - {id}) + 4 * |m[id].timings|
  }

  // ---- The operations on the map ------------------------------------------------------------

  ghost function SpecGate(v: View): StoreResult {
    if v.readOnly then ReadOnly else if v.restoreState != 0 then RestoreInProgress else Ok
  }

  ghost function Fits(cfg: Config, m: map<u32, Command>): bool {
    IndexOverhead(cfg.maxCommands) + MapBytes(m) <= cfg.maxBytes
  }

  ghost function SpecPut(cfg: Config, v: View, c: Command): (StoreResult, View) {
    var known := Named(v.commands, c.name);
    var id := if known then IdNamed(v.commands, c.name) else v.nextId;
    var commands := v.commands[id := c.(id := id)];
    if SpecGate(v) != Ok then (SpecGate(v), v)
    else if ValidateName(c.name) != Ok then (ValidateName(c.name), v)
    else if !(1 <= |c.timings| <= cfg.maxPulses) then (TooManyPulses, v)
    else if !known && |v.commands| == cfg.maxCommands then (StoreFull, v)
    else if !known && v.nextId > COMMAND_ID_LAST then (IdExhausted, v)
    else if !Fits(cfg, commands) then (BudgetExceeded, v)
    else if v.revision >= REVISION_MAX then (RevisionExhausted, v)
    else (Ok, v.(commands := commands, revision := v.revision as int + 1,
                 nextId := if known then v.nextId else v.nextId as int + 1))
  }

  ghost function SpecRename(v: View, id: u32, name: Name): (StoreResult, View) {
    if SpecGate(v) != Ok then (SpecGate(v), v)
    else if ValidateName(name) != Ok then (ValidateName(name), v)
    else if id !in v.commands then (NotFound, v)
    else if v.commands[id].name == name then (Ok, v)
    else if Named(v.commands, name) then (NameTaken, v)
    else if v.revision >= REVISION_MAX then (RevisionExhausted, v)
    else (Ok, v.(commands := v.commands[id := v.commands[id].(name := name)], revision := v.revision as int + 1))
  }

  ghost function SpecRemove(v: View, id: u32): (StoreResult, View) {
    if SpecGate(v) != Ok then (SpecGate(v), v)
    else if id !in v.commands then (NotFound, v)
    else if v.revision >= REVISION_MAX then (RevisionExhausted, v)
    else (Ok, v.(commands := v.commands - {id}, revision := v.revision as int + 1))
  }

  ghost function SpecRemoveNamed(v: View, name: Name): (StoreResult, View) {
    if SpecGate(v) != Ok then (SpecGate(v), v)
    else if !Named(v.commands, name) then (NotFound, v)
    else SpecRemove(v, IdNamed(v.commands, name))
  }

  ghost function SpecClear(v: View): (StoreResult, View) {
    if v.readOnly then (ReadOnly, v)
    else if v.commands == map[] && v.restoreState == 0 then (Ok, v)
    else if v.revision >= REVISION_MAX then (RevisionExhausted, v)
    else (Ok, v.(commands := map[], restoreState := 0, revision := v.revision as int + 1))
  }

  ghost function SpecBegin(v: View, bridgeId: BridgeId, nextId: u32): (StoreResult, View) {
    if v.readOnly then (ReadOnly, v)
    else if v.commands != map[] then (RestoreNotEmpty, v)
    else if nextId == 0 then (IdConflict, v)
    else if v.revision >= REVISION_MAX then (RevisionExhausted, v)
    else (Ok, v.(bridgeId := bridgeId, nextId := nextId, restoreState := 1, revision := v.revision as int + 1))
  }

  ghost function SpecImport(cfg: Config, v: View, c: Command): (StoreResult, View) {
    if v.readOnly then (ReadOnly, v)
    else if v.restoreState == 0 then (RestoreNotActive, v)
    else if ValidateName(c.name) != Ok then (ValidateName(c.name), v)
    else if !(1 <= c.id < v.nextId) || c.id in v.commands then (IdConflict, v)
    else if Named(v.commands, c.name) then (NameTaken, v)
    else if !(1 <= |c.timings| <= cfg.maxPulses) then (TooManyPulses, v)
    else if |v.commands| == cfg.maxCommands then (StoreFull, v)
    else if !Fits(cfg, v.commands[c.id := c]) then (BudgetExceeded, v)
    else if v.revision >= REVISION_MAX then (RevisionExhausted, v)
    else (Ok, v.(commands := v.commands[c.id := c], revision := v.revision as int + 1))
  }

  ghost function SpecCommit(v: View, source: u32): (StoreResult, View) {
    if v.readOnly then (ReadOnly, v)
    else if v.restoreState == 0 then (RestoreNotActive, v)
    else if source >= REVISION_MAX || v.revision >= REVISION_MAX then (RevisionExhausted, v)
    else (Ok, v.(restoreState := 0, revision := (if source > v.revision then source else v.revision) as int + 1))
  }

  ghost function SpecReset(minted: BridgeId): (StoreResult, View) {
    (Ok, View(minted, COMMAND_ID_FIRST, REVISION_INITIAL, 0, false, map[]))
  }

  ghost function Meaning(cfg: Config, v: View, op: Op): (StoreResult, View) {
    match op
    case Put(c) => SpecPut(cfg, v, c)
    case Rename(id, name) => SpecRename(v, id, name)
    case Remove(name) => SpecRemoveNamed(v, name)
    case RemoveById(id) => SpecRemove(v, id)
    case ClearAll => SpecClear(v)
    case FactoryReset(minted) => SpecReset(minted)
    case RestoreBegin(bridgeId, nextId) => SpecBegin(v, bridgeId, nextId)
    case Import(c) => SpecImport(cfg, v, c)
    case RestoreCommit(source) => SpecCommit(v, source)
  }

  /** What the slot array answers and becomes when nothing goes wrong on flash. */
  function Decided(ram: Ram, plan: Plan): (StoreResult, Ram) {
    match plan
    case Refuse(why) => (why, ram)
    case Keep => (Ok, ram)
    case Write(next, _, _) => (Ok, next)
  }

  // ---- Slots and map agree ------------------------------------------------------------------

  ghost predicate Holds(slots: seq<Command>, n: nat, id: u32)
    requires n <= |slots|
  {
    exists i :: 0 <= i < n && slots[i].Occupied() && slots[i].id == id
  }

  lemma {:induction false} CommandsAt(slots: seq<Command>, n: nat)
    requires n <= |slots| && Distinct(slots)
    ensures forall i :: 0 <= i < n && slots[i].Occupied() ==>
              slots[i].id in CommandsUpTo(slots, n) && CommandsUpTo(slots, n)[slots[i].id] == slots[i]
    ensures forall id :: id in CommandsUpTo(slots, n) <==> Holds(slots, n, id)
  {
    if n != 0 {
      CommandsAt(slots, n - 1);
      var m, c := CommandsUpTo(slots, n - 1), slots[n - 1];
      forall id: u32
        ensures id in CommandsUpTo(slots, n) <==> Holds(slots, n, id)
      {
        if Holds(slots, n - 1, id) {
          var i :| 0 <= i < n - 1 && slots[i].Occupied() && slots[i].id == id;
        }
        if Holds(slots, n, id) && !Holds(slots, n - 1, id) {
          var i :| 0 <= i < n && slots[i].Occupied() && slots[i].id == id;
          assert i == n - 1;
        }
      }
    }
  }

  lemma {:induction false} CommandsMeasure(slots: seq<Command>, n: nat)
    requires n <= |slots| && Distinct(slots)
    ensures |CommandsUpTo(slots, n)| == Occupancy(slots, n)
    ensures MapBytes(CommandsUpTo(slots, n)) == PayloadBytes(slots, -1, n)
  {
    if n != 0 {
      CommandsMeasure(slots, n - 1);
      CommandsAt(slots, n - 1);
      var m, c := CommandsUpTo(slots, n - 1), slots[n - 1];
      if c.Occupied() {
        assert c.id !in m;
        assert m[c.id := c] - {c.id} == m;
        MapBytesLess(m[c.id := c], c.id);
      }
    }
  }

  lemma {:induction false} MapBytesLess(m: map<u32, Command>, k: u32)
    requires k in m
    ensures MapBytes(m) == MapBytes(m - {k}) + 4 * |m[k].timings|
    decreases |m|
  {
    var id :| id in m && MapBytes(m) == MapBytes(m - {id}) + 4 * |m[id].timings|;
    if id != k {
      MapBytesLess(m - {id}, k);
      MapBytesLess(m - {k}, id);
      assert m - {id} - {k} == m - {k} - {id};
    }
  }

  lemma {:induction false} SameMap(a: seq<Command>, m: map<u32, Command>)
    requires Distinct(a)
    requires forall i :: 0 <= i < |a| && a[i].Occupied() ==> a[i].id in m && m[a[i].id] == a[i]
    requires forall id :: id in m ==> Holds(a, |a|, id)
    ensures Commands(a) == m
  {
    CommandsAt(a, |a|);
  }

  lemma {:induction false} StoringUpdates(slots: seq<Command>, slot: nat, c: Command)
    requires Distinct(slots) && slot < |slots| && c.Occupied()
    requires slots[slot].Occupied() ==> slots[slot].id == c.id
    requires forall i :: 0 <= i < |slots| && i != slot && slots[i].Occupied() ==>
               slots[i].id != c.id && slots[i].name != c.name
    ensures Commands(slots[slot := c]) == Commands(slots)[c.id := c]
    ensures UsedBytes(slots[slot := c]) == IndexOverhead(|slots|) + MapBytes(Commands(slots)[c.id := c])
  {
    CommandsAt(slots, |slots|);
    var a, m := slots[slot := c], Commands(slots)[c.id := c];
    forall id | id in m
      ensures Holds(a, |a|, id)
    {
      if id == c.id {
        assert a[slot].id == id;
      } else {
        var i :| 0 <= i < |slots| && slots[i].Occupied() && slots[i].id == id;
        assert a[i].id == id;
      }
    }
    SameMap(a, m);
    CommandsMeasure(a, |a|);
  }

  lemma {:induction false} RemovingUpdates(slots: seq<Command>, slot: nat)
    requires Distinct(slots) && slot < |slots| && slots[slot].Occupied()
    ensures Commands(slots[slot := FREE]) == Commands(slots) - {slots[slot].id}
  {
    CommandsAt(slots, |slots|);
    var a, m := slots[slot := FREE], Commands(slots) - {slots[slot].id};
    forall id | id in m
      ensures Holds(a, |a|, id)
    {
      var i :| 0 <= i < |slots| && slots[i].Occupied() && slots[i].id == id;
      assert a[i].id == id;
    }
    SameMap(a, m);
  }

  lemma {:induction false} EmptyMap(slots: seq<Command>)
    requires Distinct(slots)
    ensures Commands(slots) == map[] <==> Count(slots) == 0
  {
    CommandsMeasure(slots, |slots|);
    if Count(slots) == 0 {
      assert |Commands(slots)| == 0;
    }
  }

  lemma {:induction false} SearchById(slots: seq<Command>, id: u32)
    requires Distinct(slots)
    ensures First(slots, ById(id)) >= 0 <==> id in Commands(slots)
    ensures First(slots, ById(id)) >= 0 ==> Commands(slots)[id] == slots[First(slots, ById(id))]
  {
    CommandsAt(slots, |slots|);
    if id in Commands(slots) {
      var i :| 0 <= i < |slots| && slots[i].Occupied() && slots[i].id == id;
      assert Matches(ById(id), slots[i]);
    }
  }

  lemma {:induction false} SearchByName(slots: seq<Command>, name: Name)
    requires Distinct(slots)
    ensures First(slots, ByName(name)) >= 0 <==> Named(Commands(slots), name)
    ensures First(slots, ByName(name)) >= 0 ==>
              IdNamed(Commands(slots), name) == slots[First(slots, ByName(name))].id
  {
    CommandsAt(slots, |slots|);
    var s := First(slots, ByName(name));
    if Named(Commands(slots), name) {
      var id := IdNamed(Commands(slots), name);
      var i :| 0 <= i < |slots| && slots[i].Occupied() && slots[i].id == id;
      assert Matches(ByName(name), slots[i]);
      assert i == s;
    }
    if s >= 0 {
      assert slots[s].id in Commands(slots) && Commands(slots)[slots[s].id].name == name;
    }
  }

  lemma {:induction false} RoomLeft(slots: seq<Command>, n: nat)
    requires n <= |slots|
    ensures Occupancy(slots, n) <= n
    ensures Occupancy(slots, n) == n <==> forall i :: 0 <= i < n ==> slots[i].Occupied()
  {
    if n != 0 {
      RoomLeft(slots, n - 1);
    }
  }

  lemma {:induction false} SearchFree(slots: seq<Command>)
    requires Distinct(slots)
    ensures |Commands(slots)| <= |slots|
    ensures First(slots, AnyFree) >= 0 <==> |Commands(slots)| < |slots|
  {
    CommandsMeasure(slots, |slots|);
    RoomLeft(slots, |slots|);
    if |Commands(slots)| < |slots| {
      var i :| 0 <= i < |slots| && !slots[i].Occupied();
      assert Matches(AnyFree, slots[i]);
    }
  }

  // ---- Each operation refines ---------------------------------------------------------------

  lemma {:induction false} PutRefines(cfg: Config, ram: Ram, c: Command)
    requires Sound(cfg, ram.reg)
    ensures var (result, ram') := Decided(ram, PutPlan(cfg, ram, c));
            (result, ViewOf(ram')) == SpecPut(cfg, ViewOf(ram), c)
  {
    hide ValidateName, Commands, Named, IdNamed, ProjectedBytes, Fits, Distinct;
    var reg := ram.reg;
    SearchByName(reg.slots, c.name);
    SearchFree(reg.slots);
    var found := First(reg.slots, ByName(c.name));
    var slot := if found >= 0 then found else First(reg.slots, AnyFree);
    if slot >= 0 && ValidateName(c.name) == Ok {
      var stored := c.(id := if found >= 0 then reg.slots[slot].id else reg.nextId);
      PutStores(cfg, reg, c, found, slot, stored);
    }
  }

  lemma {:induction false} PutStores(cfg: Config, reg: Registry, c: Command, found: int, slot: nat, stored: Command)
    requires Sound(cfg, reg) && found == First(reg.slots, ByName(c.name)) && slot < |reg.slots|
    requires slot == if found >= 0 then found else First(reg.slots, AnyFree)
    requires stored == c.(id := if found >= 0 then reg.slots[slot].id else reg.nextId)
    ensures Commands(reg.slots[slot := stored]) == Commands(reg.slots)[stored.id := stored]
    ensures ProjectedBytes(reg.slots, found, |c.timings|) <= cfg.maxBytes <==>
            Fits(cfg, Commands(reg.slots)[stored.id := stored])
  {
    if found < 0 {
      assert forall i :: 0 <= i < |reg.slots| ==> !Matches(ByName(c.name), reg.slots[i]);
    }
    StoringUses(reg, slot, stored);
    StoringUpdates(reg.slots, slot, stored);
  }

  lemma {:induction false} ImportRefines(cfg: Config, ram: Ram, c: Command)
    requires Sound(cfg, ram.reg)
    ensures var (result, ram') := Decided(ram, ImportPlan(cfg, ram, c));
            (result, ViewOf(ram')) == SpecImport(cfg, ViewOf(ram), c)
  {
    hide ValidateName, Commands, Named, IdNamed, ProjectedBytes, Fits, Distinct;
    var reg := ram.reg;
    SearchById(reg.slots, c.id);
    SearchByName(reg.slots, c.name);
    SearchFree(reg.slots);
    var slot := First(reg.slots, AnyFree);
    if slot >= 0 && c.Occupied() && First(reg.slots, ById(c.id)) < 0 && First(reg.slots, ByName(c.name)) < 0 {
      ImportStores(cfg, reg, c, slot);
    }
  }

  lemma {:induction false} ImportStores(cfg: Config, reg: Registry, c: Command, slot: nat)
    requires Sound(cfg, reg) && slot < |reg.slots| && !reg.slots[slot].Occupied() && c.Occupied()
    requires First(reg.slots, ById(c.id)) < 0 && First(reg.slots, ByName(c.name)) < 0
    ensures Commands(reg.slots[slot := c]) == Commands(reg.slots)[c.id := c]
    ensures ProjectedBytes(reg.slots, -1, |c.timings|) <= cfg.maxBytes <==>
            Fits(cfg, Commands(reg.slots)[c.id := c])
  {
    assert forall i :: 0 <= i < |reg.slots| && reg.slots[i].Occupied() ==>
      !Matches(ById(c.id), reg.slots[i]) && !Matches(ByName(c.name), reg.slots[i]);
    StoringUses(reg, slot, c);
    StoringUpdates(reg.slots, slot, c);
  }

  lemma {:induction false} RenameRefines(cfg: Config, ram: Ram, id: u32, name: Name)
    requires Sound(cfg, ram.reg)
    ensures var (result, ram') := Decided(ram, RenamePlan(ram, id, name));
            (result, ViewOf(ram')) == SpecRename(ViewOf(ram), id, name)
  {
    var reg := ram.reg;
    SearchById(reg.slots, id);
    SearchByName(reg.slots, name);
    var slot := First(reg.slots, ById(id));
    if slot >= 0 && First(reg.slots, ByName(name)) < 0 {
      assert forall i :: 0 <= i < |reg.slots| && reg.slots[i].Occupied() ==> !Matches(ByName(name), reg.slots[i]);
      StoringUpdates(reg.slots, slot, reg.slots[slot].(name := name));
    }
  }

  /** Renaming a command to the name it has is acknowledged and decides to write nothing. */
  lemma {:induction false} RenamingToItselfKeeps(cfg: Config, ram: Ram, i: nat)
    requires Sound(cfg, ram.reg) && !ram.readOnly && ram.reg.restoreState == 0
    requires i < |ram.reg.slots| && ram.reg.slots[i].Occupied()
    ensures RenamePlan(ram, ram.reg.slots[i].id, ram.reg.slots[i].name) == Keep
  {
    var slots := ram.reg.slots;
    assert SlotSound(cfg, ram.reg.nextId, slots[i]);
    assert Matches(ById(slots[i].id), slots[i]);
  }

  /** Clearing a closed registry that holds nothing is acknowledged and decides to write nothing. */
  lemma {:induction false} ClearingNothingKeeps(cfg: Config, ram: Ram)
    requires !ram.readOnly
    ensures ClearAllPlan(cfg, ram) == Keep <==>
            ram.reg.restoreState == 0 && forall i :: 0 <= i < |ram.reg.slots| ==> !ram.reg.slots[i].Occupied()
  {
    var slots := ram.reg.slots;
    if Count(slots) == 0 {
      OccupancyZero(slots, |slots|);
    } else if forall i :: 0 <= i < |slots| ==> !slots[i].Occupied() {
      PayloadOfEmpty(slots, |slots|);
    }
  }

  lemma {:induction false} RemoveRefines(cfg: Config, ram: Ram, id: u32)
    requires Sound(cfg, ram.reg)
    ensures var (result, ram') := Decided(ram, RemoveByIdPlan(ram, id));
            (result, ViewOf(ram')) == SpecRemove(ViewOf(ram), id)
  {
    SearchById(ram.reg.slots, id);
    var slot := First(ram.reg.slots, ById(id));
    if slot >= 0 {
      RemovingUpdates(ram.reg.slots, slot);
    }
  }

  lemma {:induction false} EmptySlotsMean(cfg: Config)
    ensures Commands(EmptySlots(cfg)) == map[]
  {
    SameMap(EmptySlots(cfg), map[]);
  }

  /** Every operation on the slot array is the operation of the same name on the map. */
  lemma {:induction false} OperationsRefine(cfg: Config, ram: Ram, op: Op)
    requires Sound(cfg, ram.reg)
    ensures var (result, ram') := Decided(ram, PlanOf(cfg, ram, op));
            (result, ViewOf(ram')) == Meaning(cfg, ViewOf(ram), op)
  {
    match op
    case Put(c) => PutRefines(cfg, ram, c);
    case Rename(id, name) => RenameRefines(cfg, ram, id, name);
    case Remove(name) =>
      SearchByName(ram.reg.slots, name);
      if First(ram.reg.slots, ByName(name)) >= 0 {
        RemoveRefines(cfg, ram, ram.reg.slots[First(ram.reg.slots, ByName(name))].id);
      }
    case RemoveById(id) => RemoveRefines(cfg, ram, id);
    case ClearAll =>
      EmptyMap(ram.reg.slots);
      EmptySlotsMean(cfg);
    case FactoryReset(minted) => EmptySlotsMean(cfg);
    case RestoreBegin(bridgeId, nextId) => EmptyMap(ram.reg.slots);
    case Import(c) => ImportRefines(cfg, ram, c);
    case RestoreCommit(source) =>
  }
}

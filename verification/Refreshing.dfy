/**
 * One refresh, call by call, while the device is free to change between the calls: it leaves exactly what
 * the snapshot manager computes from the answers. And what a refresh leaves in a read-only session.
 */
module Refreshing {
  import opened Bytes
  import opened RegistryModel
  import opened Layout
  import opened Flash
  import opened Recovery
  import opened Bridge
  import opened Restore
  import opened Replica
  import opened Runs
  import opened Durable

  /** Between two calls the device goes through `events`; then the export is answered, or the transport fails. */
  datatype Turn = Turn(events: seq<Event>, answered: bool)

  function DeviceActions(events: seq<Event>): seq<Action> {
    seq(|events|, i requires 0 <= i < |events| => Device(events[i]))
  }

  function TurnActions(turns: seq<Turn>, j: nat): seq<Action> {
    if turns == [] then []
    else
      DeviceActions(turns[0].events) + [if turns[0].answered then Export(j) else Abandon(j)] +
      TurnActions(turns[1..], j)
  }

  /** A whole refresh whose job is numbered `j`. */
  function RefreshActions(turns: seq<Turn>, j: nat): seq<Action> {
    [Poll] + TurnActions(turns, j) + [Finish(j)]
  }

  function AfterTurns(cfg: Config, m: Machine, turns: seq<Turn>): Machine
    decreases |turns|
  {
    if turns == [] then m else AfterTurns(cfg, After(cfg, m, turns[0].events), turns[1..])
  }

  /** The answers to asking for `listing`, one id a turn. */
  function Replies(cfg: Config, m: Machine, listing: seq<u32>, turns: seq<Turn>): (replies: seq<Reply>)
    requires |turns| == |listing|
    ensures |replies| == |listing|
    decreases |turns|
  {
    if turns == [] then []
    else
      var m' := After(cfg, m, turns[0].events);
      var found := ExportById(m'.ram, listing[0]);
      [if !turns[0].answered then Unavailable else if found == None then Missing else Found(found.value)] +
      Replies(cfg, m', listing[1..], turns[1..])
  }

  // ---- Answers, first to last ---------------------------------------------------------------

  lemma {:induction false} GatherOne(first: seq<Command>, mid: seq<Command>, last: Command)
    ensures first + mid + [last] == first + (mid + [last])
  {
  }

  lemma {:induction false} ExportedFirst(replies: seq<Reply>)
    requires replies != []
    ensures var rest := ExportedAll(replies[1..]);
            ExportedAll(replies) ==
            if replies[0].Found? && rest.Some? then Some([replies[0].command] + rest.value) else None
    decreases |replies|
  {
    var n := |replies| - 1;
    if n == 0 {
      assert replies[1..] == [] && replies[..0] == [];
      if replies[0].Found? {
        assert [] + [replies[0].command] == [replies[0].command] + [];
      }
    } else {
      ExportedFirst(replies[..n]);
      assert replies[..n][1..] == replies[1..][..n - 1];
      assert replies[1..][n - 1] == replies[n];
      var mid := ExportedAll(replies[1..n]);
      assert replies[..n][1..] == replies[1..n];
      if replies[0].Found? && mid.Some? && replies[n].Found? {
        GatherOne([replies[0].command], mid.value, replies[n].command);
      }
    }
  }

  // ---- Runs of actions ----------------------------------------------------------------------

  lemma {:induction false} RanAppend(cfg: Config, bridgeId: string, sys: System, a: seq<Action>, b: seq<Action>)
    ensures Ran(cfg, bridgeId, sys, a + b) == Ran(cfg, bridgeId, Ran(cfg, bridgeId, sys, a), b)
    decreases |a|
  {
    hide Next;
    if a == [] {
      assert a + b == b;
    } else {
      assert (a + b)[1..] == a[1..] + b;
      RanAppend(cfg, bridgeId, Next(cfg, bridgeId, sys, a[0]), a[1..], b);
    }
  }

  lemma {:induction false} RanOne(cfg: Config, bridgeId: string, sys: System, a: Action)
    ensures Ran(cfg, bridgeId, sys, [a]) == Next(cfg, bridgeId, sys, a)
  {
    hide Next;
    assert Ran(cfg, bridgeId, Next(cfg, bridgeId, sys, a), []) == Next(cfg, bridgeId, sys, a);
  }

  lemma {:induction false} RanDevice(cfg: Config, bridgeId: string, sys: System, events: seq<Event>)
    ensures Ran(cfg, bridgeId, sys, DeviceActions(events)) == sys.(device := After(cfg, sys.device, events))
    decreases |events|
  {
    hide Step;
    if events != [] {
      assert DeviceActions(events)[1..] == DeviceActions(events[1..]);
      RanDevice(cfg, bridgeId, sys.(device := Step(cfg, sys.device, events[0])), events[1..]);
    }
  }

  /** The actions of the first turn, taken: what is left is the turns after it. */
  lemma {:induction false} FirstTurn(cfg: Config, bridgeId: string, sys: System, turns: seq<Turn>, j: nat)
    requires turns != []
    ensures var m := After(cfg, sys.device, turns[0].events);
            var act := if turns[0].answered then Export(j) else Abandon(j);
            Ran(cfg, bridgeId, sys, TurnActions(turns, j)) ==
            Ran(cfg, bridgeId, Next(cfg, bridgeId, sys.(device := m), act), TurnActions(turns[1..], j))
  {
    hide Next;
    var act := if turns[0].answered then Export(j) else Abandon(j);
    var events, rest := DeviceActions(turns[0].events), TurnActions(turns[1..], j);
    RanAppend(cfg, bridgeId, sys, events + [act], rest);
    RanAppend(cfg, bridgeId, sys, events, [act]);
    RanDevice(cfg, bridgeId, sys, turns[0].events);
    RanOne(cfg, bridgeId, sys.(device := After(cfg, sys.device, turns[0].events)), act);
  }

  /** Once its job is gone, the rest of a refresh changes nothing but the device. */
  lemma {:induction false} TurnsWithoutJob(cfg: Config, bridgeId: string, sys: System, turns: seq<Turn>, j: nat)
    requires j == |sys.jobs|
    ensures Ran(cfg, bridgeId, sys, TurnActions(turns, j)) == sys.(device := AfterTurns(cfg, sys.device, turns))
    decreases |turns|
  {
    hide Ran, Step;
    if turns == [] {
      RanNone(cfg, bridgeId, sys);
    } else {
      FirstTurn(cfg, bridgeId, sys, turns, j);
      TurnsWithoutJob(cfg, bridgeId, sys.(device := After(cfg, sys.device, turns[0].events)), turns[1..], j);
    }
  }

  lemma {:induction false} RanNone(cfg: Config, bridgeId: string, sys: System)
    ensures Ran(cfg, bridgeId, sys, []) == sys
  {
  }

  /** The turns of a job gather the answers, and drop the job at the first that is missing. */
  lemma {:induction false} TurnsGather(cfg: Config, bridgeId: string, sys: System, jobs: seq<Copy>, c: Copy,
                                       turns: seq<Turn>)
    requires sys.jobs == jobs + [c] && |c.exported| + |turns| == |c.listing|
    ensures var asked := c.listing[|c.exported|..];
            var all := ExportedAll(Replies(cfg, sys.device, asked, turns));
            Ran(cfg, bridgeId, sys, TurnActions(turns, |jobs|)) ==
            System(AfterTurns(cfg, sys.device, turns), sys.replica,
                   if all.Some? then jobs + [c.(exported := c.exported + all.value)] else jobs)
    decreases |turns|
  {
    hide Ran, Step, ExportById, ExportedAll;
    var k, j, asked := |c.exported|, |jobs|, c.listing[|c.exported|..];
    if turns == [] {
      RanNone(cfg, bridgeId, sys);
      ExportedNone();
      assert c.exported + [] == c.exported;
    } else {
      var m := After(cfg, sys.device, turns[0].events);
      var found := ExportById(m.ram, asked[0]);
      FirstTurn(cfg, bridgeId, sys, turns, j);
      ExportedFirst(Replies(cfg, sys.device, asked, turns));
      assert Without(sys.jobs, j) == jobs;
      if turns[0].answered && found.Some? {
        var c' := c.(exported := c.exported + [found.value]);
        assert sys.jobs[j := c'] == jobs + [c'];
        assert c'.listing[k + 1..] == asked[1..];
        TurnsGather(cfg, bridgeId, sys.(device := m, jobs := jobs + [c']), jobs, c', turns[1..]);
        var rest := ExportedAll(Replies(cfg, m, asked[1..], turns[1..]));
        if rest.Some? {
          GatherTwo(c.exported, found.value, rest.value);
        }
      } else {
        TurnsWithoutJob(cfg, bridgeId, sys.(device := m, jobs := jobs), turns[1..], j);
      }
    }
  }

  lemma {:induction false} ExportedNone()
    ensures ExportedAll([]) == Some([])
  {
  }

  lemma {:induction false} GatherTwo(exported: seq<Command>, found: Command, rest: seq<Command>)
    ensures exported + [found] + rest == exported + ([found] + rest)
  {
  }

  lemma {:induction false} ExportedSize(replies: seq<Reply>)
    ensures ExportedAll(replies).Some? ==> |ExportedAll(replies).value| == |replies|
  {
    if replies != [] {
      ExportedSize(replies[..|replies| - 1]);
    }
  }

  /**
   * A refresh carried out call by call, with whatever the device goes through in between, leaves exactly
   * what the snapshot manager makes of the status it began with and the answers it got.
   */
  lemma {:induction false} RefreshIsItsCalls(cfg: Config, bridgeId: string, sys: System, turns: seq<Turn>)
    requires |turns| == |StatusOf(cfg, sys.device.ram).listing|
    ensures var status := StatusOf(cfg, sys.device.ram);
            Ran(cfg, bridgeId, sys, RefreshActions(turns, |sys.jobs|)) ==
            System(AfterTurns(cfg, sys.device, turns),
                   Refreshed(bridgeId, sys.replica, status, Replies(cfg, sys.device, status.listing, turns)), sys.jobs)
  {
    hide Ran, Step, TurnActions, StatusOf, Replies, AfterTurns;
    var j, status := |sys.jobs|, StatusOf(cfg, sys.device.ram);
    var body := TurnActions(turns, j);
    RanAppend(cfg, bridgeId, sys, [Poll] + body, [Finish(j)]);
    RanAppend(cfg, bridgeId, sys, [Poll], body);
    RanOne(cfg, bridgeId, sys, Poll);
    var polled := Next(cfg, bridgeId, sys, Poll);
    var done := Ran(cfg, bridgeId, polled, body);
    RanOne(cfg, bridgeId, done, Finish(j));
    if Wants(bridgeId, sys.replica, status) {
      var c := Copy(status.bridgeId, status.revision, status.nextId, status.listing, []);
      TurnsGather(cfg, bridgeId, polled, sys.jobs, c, turns);
      assert c.listing[0..] == status.listing;
      ExportedSize(Replies(cfg, sys.device, status.listing, turns));
      JobFinishes(sys.jobs, c, ExportedAll(Replies(cfg, sys.device, status.listing, turns)));
    } else {
      TurnsWithoutJob(cfg, bridgeId, sys, turns, j);
    }
  }

  lemma {:induction false} JobFinishes(jobs: seq<Copy>, c: Copy, all: Option<seq<Command>>)
    requires c.exported == []
    ensures all.Some? ==> c.exported + all.value == all.value
    ensures all.Some? ==> Without(jobs + [c.(exported := all.value)], |jobs|) == jobs
  {
  }

  // ---- In a read-only session ---------------------------------------------------------------

  /** Every export is answered, and nobody resets the device. */
  predicate Undisturbed(turns: seq<Turn>) {
    forall i :: 0 <= i < |turns| ==> turns[i].answered && NoReset(turns[i].events)
  }

  lemma {:induction false} FrozenReplies(cfg: Config, m: Machine, turns: seq<Turn>, from: nat)
    requires Frozen(cfg, m) && Sound(cfg, m.ram.reg) && Undisturbed(turns)
    requires from + |turns| == |Listed(m.ram.reg.slots)|
    ensures var listed := Listed(m.ram.reg.slots);
            && AfterTurns(cfg, m, turns) == m
            && ExportedAll(Replies(cfg, m, Ids(listed)[from..], turns)) == Some(listed[from..])
    decreases |turns|
  {
    hide Frozen, Listed, ExportedAll, After;
    var listed := Listed(m.ram.reg.slots);
    var asked := Ids(listed)[from..];
    if turns == [] {
      ExportedNone();
      assert asked == [] && listed[from..] == [];
    } else {
      assert Undisturbed(turns[1..]) && turns[0].answered && NoReset(turns[0].events);
      ReadOnlyWritesNothing(cfg, m, turns[0].events);
      FrozenReplies(cfg, m, turns[1..], from + 1);
      assert asked[1..] == Ids(listed)[from + 1..] && asked[0] == listed[from].id;
      ExportOfListed(m.ram.reg.slots, from);
      ExportedFirst(Replies(cfg, m, asked, turns));
      assert listed[from..] == [listed[from]] + listed[from + 1..];
    }
  }

  /**
   * The manager does not ask whether a session is read-only: a refresh it begins there stores exactly the
   * commands that loaded, under the token of the whole registry.
   */
  lemma {:induction false} ReadOnlyRefreshStoresWhatLoaded(cfg: Config, bridgeId: string, sys: System, turns: seq<Turn>)
    requires Frozen(cfg, sys.device) && Sound(cfg, sys.device.ram.reg) && Undisturbed(turns)
    requires |turns| == |Listed(sys.device.ram.reg.slots)|
    requires Wants(bridgeId, sys.replica, StatusOf(cfg, sys.device.ram))
    ensures var reg := sys.device.ram.reg;
            Ran(cfg, bridgeId, sys, RefreshActions(turns, |sys.jobs|)) ==
            sys.(replica := Some(Snapshot(HexOf(reg.bridgeId), reg.revision, reg.nextId, Listed(reg.slots))))
  {
    hide Frozen, Ran, RefreshActions, Listed, HexOf, ExportedAll, Replies, AfterTurns;
    var status := StatusOf(cfg, sys.device.ram);
    FrozenReplies(cfg, sys.device, turns, 0);
    assert status.listing[0..] == status.listing;
    RefreshIsItsCalls(cfg, bridgeId, sys, turns);
    var listed := Listed(sys.device.ram.reg.slots);
    assert listed[0..] == listed;
  }

  /**
   * So a replica that is not yet current is not safe from a torn relearn: the refresh begun after the boot
   * stores the shortened listing over it, and the lost command is in neither place.
   */
  lemma {:induction false} RefreshAfterTornRelearnDropsTheCommand(cfg: Config, ram: Ram, records: Records, c: Command,
      bridgeId: string, replica: Option<Snapshot>, minted: BridgeId, turns: seq<Turn>)
    requires Sound(cfg, ram.reg) && InStep(cfg, records, ram.reg)
    requires PutPlan(cfg, ram, c).Write? && First(ram.reg.slots, ByName(c.name)) >= 0
    requires !Collides(ram.reg.slots[First(ram.reg.slots, ByName(c.name))].timings, c.timings)
    requires Wants(bridgeId, replica, StatusOf(cfg, ram))
    requires Undisturbed(turns) && |turns| + 1 == Count(ram.reg.slots)
    ensures var lost := ram.reg.slots[First(ram.reg.slots, ByName(c.name))];
            var started := Reboot(cfg, CutRecords(cfg, ram, records, Put(c), 1), minted, 0);
            var sys := System(Machine(started.ram, started.records), replica, []);
            var stored := Ran(cfg, bridgeId, sys, RefreshActions(turns, 0)).replica;
            && started.ram.readOnly && stored.Some? && SameToken(ram, stored.value)
            && lost in Listed(ram.reg.slots) && lost !in stored.value.commands
  {
    hide IndexBytes, HeaderBytes, TimingBytes, Reboot, CutRecords, Collides, ProjectedBytes, ValidateName, HexOf, Ran,
         RefreshActions, ListedUpTo, Frozen, Undisturbed;
    var s: nat := First(ram.reg.slots, ByName(c.name));
    var after := CutRecords(cfg, ram, records, Put(c), 1);
    var started := Reboot(cfg, after, minted, 0);
    RelearnConfined(cfg, ram, records, c, 1, minted, 0);
    ReadOnlyBootIsFrozen(cfg, after, minted, 0);
    FreeSlotSound(cfg, ram.reg, s);
    OccupancyLess(ram.reg.slots, s, |ram.reg.slots|);
    LostIsUnlisted(cfg, ram.reg, s);
    ReadOnlyRefreshStoresWhatLoaded(cfg, bridgeId, System(Machine(started.ram, started.records), replica, []), turns);
  }

  lemma {:induction false} FreeSlotSound(cfg: Config, reg: Registry, s: nat)
    requires Sound(cfg, reg) && s < |reg.slots|
    ensures Sound(cfg, reg.(slots := reg.slots[s := FREE]))
  {
    hide SlotSound;
    assert forall i :: 0 <= i < |reg.slots| ==> SlotSound(cfg, reg.nextId, reg.slots[i]);
    assert SlotSound(cfg, reg.nextId, FREE) by { FreeIsSound(cfg, reg.nextId); }
    PayloadUpdate(reg.slots, s, FREE, |reg.slots|);
  }

  lemma {:induction false} FreeIsSound(cfg: Config, nextId: u32)
    ensures SlotSound(cfg, nextId, FREE)
  {
  }

  lemma {:induction false} LostIsUnlisted(cfg: Config, reg: Registry, s: nat)
    requires Sound(cfg, reg) && s < |reg.slots| && reg.slots[s].Occupied()
    ensures reg.slots[s] in Listed(reg.slots) && reg.slots[s] !in Listed(reg.slots[s := FREE])
  {
    hide Sound, ListedUpTo, SlotSound;
    var without := reg.slots[s := FREE];
    ListedMembers(reg.slots, |reg.slots|);
    ListedMembers(without, |without|);
    if reg.slots[s] in Listed(without) {
      var i :| 0 <= i < |without| && without[i].Occupied() && without[i] == reg.slots[s];
      OneOfAnId(cfg, reg, i, s);
    }
  }
}

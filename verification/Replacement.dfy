/**
 * Restoring the replica itself onto replacement hardware, as part of the life of the logical bridge: the
 * restore is one of the runs the replica results speak of, and the next status read brings a new replica.
 */
module Replacement {
  import opened Bytes
  import opened RegistryModel
  import opened Layout
  import opened Flash
  import opened Recovery
  import opened Bridge
  import opened Restore
  import opened Replica
  import opened Refreshing
  import opened Runs
  import opened Durable

  function BeginActions(s: Snapshot, luck: nat -> nat): seq<Action> {
    match BridgeIdOf(s.bridgeId)
    case None => []
    case Some(id) => [Device(Do(RestoreBegin(id, s.nextId), luck(0)))]
  }

  function ImportActions(s: Snapshot, luck: nat -> nat, k: nat): seq<Action>
    requires k <= |s.commands|
    decreases |s.commands| - k
  {
    if k == |s.commands| then []
    else [Device(Do(Import(s.commands[k]), luck(k + 1)))] + ImportActions(s, luck, k + 1)
  }

  function CommitActions(s: Snapshot, luck: nat -> nat): seq<Action> {
    if 0 <= s.revision <= REVISION_MAX then [Device(Do(RestoreCommit(s.revision), luck(|s.commands| + 1)))] else []
  }

  /** The calls of a restore of `s`, as steps of the device. */
  function RestoreActions(s: Snapshot, luck: nat -> nat): seq<Action> {
    BeginActions(s, luck) + ImportActions(s, luck, 0) + CommitActions(s, luck)
  }

  // ---- The calls are the protocol -----------------------------------------------------------

  lemma {:induction false} ImportsRan(cfg: Config, bridgeId: string, sys: System, s: Snapshot, luck: nat -> nat, k: nat)
    requires k <= |s.commands|
    ensures Ran(cfg, bridgeId, sys, ImportActions(s, luck, k)) == sys.(device := Imports(cfg, sys.device, s, luck, k))
    decreases |s.commands| - k
  {
    hide Step;
    if k < |s.commands| {
      var m := Call(cfg, sys.device, Import(s.commands[k]), luck(k + 1));
      ImportsRan(cfg, bridgeId, sys.(device := m), s, luck, k + 1);
      assert ImportActions(s, luck, k)[1..] == ImportActions(s, luck, k + 1);
    }
  }

  lemma {:induction false} RestoreRan(cfg: Config, bridgeId: string, sys: System, s: Snapshot, luck: nat -> nat)
    ensures Ran(cfg, bridgeId, sys, RestoreActions(s, luck)) == sys.(device := Written(cfg, sys.device, s, luck))
  {
    hide Step, Ran, Imports, ImportActions;
    var begun := BeginCall(cfg, sys.device, s, luck(0));
    RanAppend(cfg, bridgeId, sys, BeginActions(s, luck) + ImportActions(s, luck, 0), CommitActions(s, luck));
    RanAppend(cfg, bridgeId, sys, BeginActions(s, luck), ImportActions(s, luck, 0));
    BeginRan(cfg, bridgeId, sys, s, luck);
    ImportsRan(cfg, bridgeId, sys.(device := begun), s, luck, 0);
    CommitRan(cfg, bridgeId, sys.(device := Imports(cfg, begun, s, luck, 0)), s, luck);
  }

  lemma {:induction false} BeginRan(cfg: Config, bridgeId: string, sys: System, s: Snapshot, luck: nat -> nat)
    ensures Ran(cfg, bridgeId, sys, BeginActions(s, luck)) == sys.(device := BeginCall(cfg, sys.device, s, luck(0)))
  {
    hide Step, Ran;
    RanNone(cfg, bridgeId, sys);
    if BridgeIdOf(s.bridgeId).Some? {
      RanOne(cfg, bridgeId, sys, BeginActions(s, luck)[0]);
    }
  }

  lemma {:induction false} CommitRan(cfg: Config, bridgeId: string, sys: System, s: Snapshot, luck: nat -> nat)
    ensures Ran(cfg, bridgeId, sys, CommitActions(s, luck)) ==
            sys.(device := CommitCall(cfg, sys.device, s, luck(|s.commands| + 1)))
  {
    hide Step, Ran;
    RanNone(cfg, bridgeId, sys);
    if 0 <= s.revision <= REVISION_MAX {
      RanOne(cfg, bridgeId, sys, CommitActions(s, luck)[0]);
    }
  }

  // ---- The protocol is admissible -----------------------------------------------------------

  lemma {:induction false} AdmissibleAppend(cfg: Config, bridgeId: string, sys: System, disk: Registry, a: seq<Action>,
                                            b: seq<Action>)
    requires Admissible(cfg, bridgeId, sys, disk, a)
    requires Admissible(cfg, bridgeId, Ran(cfg, bridgeId, sys, a), RanDisk(cfg, bridgeId, sys, disk, a), b)
    ensures Admissible(cfg, bridgeId, sys, disk, a + b)
    decreases |a|
  {
    hide Next, Clean, Advancing, NextDisk;
    if a == [] {
      assert a + b == b;
    } else {
      assert (a + b)[1..] == a[1..] + b;
      AdmissibleAppend(cfg, bridgeId, Next(cfg, bridgeId, sys, a[0]), NextDisk(cfg, sys, disk, a[0]), a[1..], b);
    }
  }

  lemma {:induction false} DiskAppend(cfg: Config, bridgeId: string, sys: System, disk: Registry, a: seq<Action>,
                                      b: seq<Action>)
    ensures RanDisk(cfg, bridgeId, sys, disk, a + b) ==
            RanDisk(cfg, bridgeId, Ran(cfg, bridgeId, sys, a), RanDisk(cfg, bridgeId, sys, disk, a), b)
    decreases |a|
  {
    hide Next, NextDisk;
    if a == [] {
      assert a + b == b;
    } else {
      assert (a + b)[1..] == a[1..] + b;
      DiskAppend(cfg, bridgeId, Next(cfg, bridgeId, sys, a[0]), NextDisk(cfg, sys, disk, a[0]), a[1..], b);
    }
  }

  /** One call by itself is admissible when it is clean and advances. */
  lemma {:induction false} OneAdmissible(cfg: Config, bridgeId: string, sys: System, disk: Registry, e: Event)
    requires Clean(cfg, sys.device, disk, e) && Advancing(sys, e)
    ensures Admissible(cfg, bridgeId, sys, disk, [Device(e)])
    ensures RanDisk(cfg, bridgeId, sys, disk, [Device(e)]) == DiskAfter(cfg, sys.device, disk, e)
  {
    hide Clean, Advancing, Step, DiskAfter;
    var sys', disk' := Next(cfg, bridgeId, sys, Device(e)), NextDisk(cfg, sys, disk, Device(e));
    assert [Device(e)][1..] == [];
    assert Admissible(cfg, bridgeId, sys', disk', []) && RanDisk(cfg, bridgeId, sys', disk', []) == disk';
  }

  /**
   * An import whose waveform alone lands must not leave a waveform that one of the earlier commands of the
   * snapshot would be loaded with.
   */
  ghost predicate ImportsApart(s: Snapshot, luck: nat -> nat) {
    forall i, k :: 0 <= i < k < |s.commands| && luck(k + 1) == 1 ==>
      (Collides(s.commands[i].timings, s.commands[k].timings) ==> s.commands[i].timings == s.commands[k].timings)
  }

  /** Every waveform in these slots is one of the first `k` of the snapshot. */
  ghost predicate FromSnapshot(slots: seq<Command>, s: Snapshot, k: nat)
    requires k <= |s.commands|
  {
    forall x :: 0 <= x < |slots| && slots[x].Occupied() ==>
      exists i :: 0 <= i < k && slots[x].timings == s.commands[i].timings
  }

  /** An open restore is the one that was begun, and neither RAM nor flash holds anything else. */
  ghost predicate Filling(m: Machine, disk: Registry, s: Snapshot, id: Option<BridgeId>, k: nat)
    requires k <= |s.commands|
  {
    m.ram.reg.restoreState != 0 ==>
      && id.Some? && m.ram.reg.bridgeId == id.value
      && FromSnapshot(m.ram.reg.slots, s, k) && FromSnapshot(disk.slots, s, k)
  }

  lemma {:induction false} ImportFills(cfg: Config, m: Machine, disk: Registry, s: Snapshot, luck: nat -> nat, k: nat,
                                       id: Option<BridgeId>)
    requires k < |s.commands| && Filling(m, disk, s, id, k) && ImportsApart(s, luck)
    ensures var e := Do(Import(s.commands[k]), luck(k + 1));
            Clean(cfg, m, disk, e) && Filling(Step(cfg, m, e), DiskAfter(cfg, m, disk, e), s, id, k + 1)
  {
    hide Saved, SavesOf, ValidateName, ProjectedBytes, Collides, FromSnapshot;
    var plan := ImportPlan(cfg, m.ram, s.commands[k]);
    FromMore(m.ram.reg.slots, s, k);
    FromMore(disk.slots, s, k);
    if plan.Write? {
      FromNext(m.ram.reg.slots, s, k, plan.payload);
      FreeIsNone(m.ram.reg.slots, s, k, plan.payload);
      if luck(k + 1) == 1 && plan.payload < |disk.slots| {
        FromApart(disk.slots, s, luck, k, plan.payload);
      }
    }
  }

  lemma {:induction false} FromMore(slots: seq<Command>, s: Snapshot, k: nat)
    requires k < |s.commands|
    ensures FromSnapshot(slots, s, k) ==> FromSnapshot(slots, s, k + 1)
  {
    if FromSnapshot(slots, s, k) {
      forall x | 0 <= x < |slots| && slots[x].Occupied()
        ensures exists i :: 0 <= i < k + 1 && slots[x].timings == s.commands[i].timings
      {
        var i :| 0 <= i < k && slots[x].timings == s.commands[i].timings;
      }
    }
  }

  lemma {:induction false} FromNext(slots: seq<Command>, s: Snapshot, k: nat, at: nat)
    requires k < |s.commands| && at < |slots|
    ensures FromSnapshot(slots, s, k) ==> FromSnapshot(slots[at := s.commands[k]], s, k + 1)
  {
    if FromSnapshot(slots, s, k) {
      var next := slots[at := s.commands[k]];
      forall x | 0 <= x < |next| && next[x].Occupied()
        ensures exists i :: 0 <= i < k + 1 && next[x].timings == s.commands[i].timings
      {
        if x != at {
          var i :| 0 <= i < k && slots[x].timings == s.commands[i].timings;
        } else {
          assert next[x].timings == s.commands[k].timings;
        }
      }
    }
  }

  lemma {:induction false} FreeIsNone(slots: seq<Command>, s: Snapshot, k: nat, at: nat)
    requires k < |s.commands| && at < |slots| && !slots[at].Occupied()
    ensures FromSnapshot(slots, s, k) ==> FromSnapshot(slots[at := FREE], s, k + 1)
  {
    if FromSnapshot(slots, s, k) {
      FromMore(slots, s, k);
      var freed := slots[at := FREE];
      forall x | 0 <= x < |freed| && freed[x].Occupied()
        ensures exists i :: 0 <= i < k + 1 && freed[x].timings == s.commands[i].timings
      {
        assert slots[x] == freed[x];
      }
    }
  }

  lemma {:induction false} FromApart(slots: seq<Command>, s: Snapshot, luck: nat -> nat, k: nat, at: nat)
    requires k < |s.commands| && at < |slots| && FromSnapshot(slots, s, k) && ImportsApart(s, luck) && luck(k + 1) == 1
    ensures Apart(slots[at], s.commands[k].timings)
  {
    hide Collides;
    if slots[at].Occupied() {
      var i :| 0 <= i < k && slots[at].timings == s.commands[i].timings;
    }
  }

  lemma {:induction false} ImportsAdmissible(cfg: Config, bridgeId: string, sys: System, disk: Registry, s: Snapshot,
                                             luck: nat -> nat, k: nat, id: Option<BridgeId>)
    requires k <= |s.commands| && Filling(sys.device, disk, s, id, k) && ImportsApart(s, luck)
    ensures Admissible(cfg, bridgeId, sys, disk, ImportActions(s, luck, k))
    ensures var disk' := RanDisk(cfg, bridgeId, sys, disk, ImportActions(s, luck, k));
            Filling(Imports(cfg, sys.device, s, luck, k), disk', s, id, |s.commands|)
    decreases |s.commands| - k
  {
    hide Step, Filling, Clean, DiskAfter, ImportsApart;
    if k < |s.commands| {
      var e := Do(Import(s.commands[k]), luck(k + 1));
      var m, disk' := Step(cfg, sys.device, e), DiskAfter(cfg, sys.device, disk, e);
      ImportFills(cfg, sys.device, disk, s, luck, k, id);
      ImportsAdmissible(cfg, bridgeId, sys.(device := m), disk', s, luck, k + 1, id);
      assert ImportActions(s, luck, k)[1..] == ImportActions(s, luck, k + 1);
    }
  }

  lemma {:induction false} BeginAdmissible(cfg: Config, bridgeId: string, sys: System, disk: Registry, s: Snapshot,
                                           luck: nat -> nat)
    requires Sound(cfg, sys.device.ram.reg) && CheckTarget(StatusOf(cfg, sys.device.ram), s).None?
    ensures Admissible(cfg, bridgeId, sys, disk, BeginActions(s, luck))
    ensures Filling(BeginCall(cfg, sys.device, s, luck(0)), RanDisk(cfg, bridgeId, sys, disk, BeginActions(s, luck)), s,
                    BridgeIdOf(s.bridgeId), 0)
  {
    hide Step, BridgeIdOf, Sound, DiskAfter, Admissible, RanDisk;
    var id := BridgeIdOf(s.bridgeId);
    if id.Some? {
      var e := Do(RestoreBegin(id.value, s.nextId), luck(0));
      BeginFills(cfg, sys.device, disk, s, id.value, luck(0));
      assert BeginActions(s, luck) == [Device(e)];
      OneAdmissible(cfg, bridgeId, sys, disk, e);
    } else {
      NoActions(cfg, bridgeId, sys, disk);
    }
  }

  lemma {:induction false} NoActions(cfg: Config, bridgeId: string, sys: System, disk: Registry)
    ensures Admissible(cfg, bridgeId, sys, disk, []) && RanDisk(cfg, bridgeId, sys, disk, []) == disk
  {
  }

  lemma {:induction false} BeginFills(cfg: Config, m: Machine, disk: Registry, s: Snapshot, id: BridgeId, landed: nat)
    requires Sound(cfg, m.ram.reg) && CheckTarget(StatusOf(cfg, m.ram), s).None?
    ensures var e := Do(RestoreBegin(id, s.nextId), landed);
            Clean(cfg, m, disk, e) && Filling(Step(cfg, m, e), DiskAfter(cfg, m, disk, e), s, Some(id), 0)
  {
    hide Sound, Saved, SavesOf, PlanOf, CheckTarget, StatusOf, FromSnapshot;
    var op := RestoreBegin(id, s.nextId);
    BeginShape(cfg, m.ram, s, op);
    if PlanOf(cfg, m.ram, op).Write? {
      SaveCount(cfg, m.ram, op);
    }
  }

  lemma {:induction false} BeginShape(cfg: Config, ram: Ram, s: Snapshot, op: Op)
    requires Sound(cfg, ram.reg) && CheckTarget(StatusOf(cfg, ram), s).None? && op.RestoreBegin?
    ensures var plan := PlanOf(cfg, ram, op);
            && ram.reg.restoreState == 0
            && (plan.Write? ==>
                  && plan.payload < 0 && plan.undo == ram && plan.next.reg.bridgeId == op.bridgeId
                  && FromSnapshot(plan.next.reg.slots, s, 0))
  {
    hide Sound, HexOf, Padded, Occupancy;
    EmptyIsPadded(cfg, ram.reg, s.commands);
  }

  /** No copy of the bridge the snapshot restores has a newer revision than the snapshot. */
  ghost predicate NothingNewer(sys: System, s: Snapshot) {
    var id := BridgeIdOf(s.bridgeId);
    id.Some? ==> forall c :: IsCopy(sys, c) && c.bridgeId == HexOf(id.value) ==> c.revision <= s.revision
  }

  lemma {:induction false} CommitAdmissible(cfg: Config, bridgeId: string, sys: System, disk: Registry, s: Snapshot,
                                            luck: nat -> nat)
    requires Filling(sys.device, disk, s, BridgeIdOf(s.bridgeId), |s.commands|) && NothingNewer(sys, s)
    ensures Admissible(cfg, bridgeId, sys, disk, CommitActions(s, luck))
  {
    hide Step, BridgeIdOf, HexOf, Next, DiskAfter, FromSnapshot, Admissible;
    if 0 <= s.revision <= REVISION_MAX {
      var e := Do(RestoreCommit(s.revision), luck(|s.commands| + 1));
      assert CommitActions(s, luck) == [Device(e)];
      OneAdmissible(cfg, bridgeId, sys, disk, e);
    } else {
      NoActions(cfg, bridgeId, sys, disk);
    }
  }

  /**
   * A restore onto a target that passes the check is among the runs the replica results allow, whichever
   * saves are refused, as long as no copy newer than its snapshot is about.
   */
  lemma {:induction false} RestoreIsAdmissible(cfg: Config, bridgeId: string, sys: System, disk: Registry, s: Snapshot,
                                               luck: nat -> nat)
    requires Sound(cfg, sys.device.ram.reg) && CheckTarget(StatusOf(cfg, sys.device.ram), s).None?
    requires NothingNewer(sys, s) && ImportsApart(s, luck)
    ensures Admissible(cfg, bridgeId, sys, disk, RestoreActions(s, luck))
  {
    hide Step, Ran, RanDisk, Imports, ImportActions, BeginActions, CommitActions, Admissible, BridgeIdOf, HexOf,
         Filling, BeginCall, ImportsApart, CheckTarget, Sound;
    var id := BridgeIdOf(s.bridgeId);
    var begun := sys.(device := BeginCall(cfg, sys.device, s, luck(0)));
    var filled := sys.(device := Imports(cfg, begun.device, s, luck, 0));
    var begin, imports := BeginActions(s, luck), ImportActions(s, luck, 0);
    BeginAdmissible(cfg, bridgeId, sys, disk, s, luck);
    BeginRan(cfg, bridgeId, sys, s, luck);
    var disk' := RanDisk(cfg, bridgeId, sys, disk, begin);
    ImportsAdmissible(cfg, bridgeId, begun, disk', s, luck, 0, id);
    ImportsRan(cfg, bridgeId, begun, s, luck, 0);
    AdmissibleAppend(cfg, bridgeId, sys, disk, begin, imports);
    RanAppend(cfg, bridgeId, sys, begin, imports);
    DiskAppend(cfg, bridgeId, sys, disk, begin, imports);
    SameCopies(sys, filled, s);
    CommitAdmissible(cfg, bridgeId, filled, RanDisk(cfg, bridgeId, sys, disk, begin + imports), s, luck);
    AdmissibleAppend(cfg, bridgeId, sys, disk, begin + imports, CommitActions(s, luck));
  }

  lemma {:induction false} SameCopies(a: System, b: System, s: Snapshot)
    requires NothingNewer(a, s) && a.replica == b.replica && a.jobs == b.jobs
    ensures NothingNewer(b, s)
  {
    hide BridgeIdOf, HexOf;
    var id := BridgeIdOf(s.bridgeId);
    if id.Some? {
      forall c | IsCopy(b, c) && c.bridgeId == HexOf(id.value)
        ensures c.revision <= s.revision
      {
        assert IsCopy(a, c);
      }
    }
  }

  /**
   * Restore the replica onto replacement hardware, with no newer refresh in flight and whatever of the saves
   * landing. The result is a start from which every replica result holds again; and if the restore raised
   * nothing, the device holds the replica's commands under a revision past the replica's, so the next status
   * read calls for a refresh.
   */
  lemma {:induction false} RestoredReplicaStaysExact(cfg: Config, sys: System, disk: Registry, luck: nat -> nat)
    requires Good(cfg, sys, disk) && sys.replica.Some? && sys.replica.value.commands != []
    requires CheckTarget(StatusOf(cfg, sys.device.ram), sys.replica.value).None?
    requires NothingNewer(sys, sys.replica.value) && ImportsApart(sys.replica.value, luck)
    ensures var s := sys.replica.value;
            var end := Ran(cfg, s.bridgeId, sys, RestoreActions(s, luck));
            && Good(cfg, end, RanDisk(cfg, s.bridgeId, sys, disk, RestoreActions(s, luck)))
            && end.replica == sys.replica
            && end.device == RestoreRun(cfg, sys.device, s, luck).1
            && (RestoreRun(cfg, sys.device, s, luck).0 == None ==>
                  && Readable(end.device.ram) && Listed(end.device.ram.reg.slots) == s.commands
                  && Wants(s.bridgeId, end.replica, StatusOf(cfg, end.device.ram)))
  {
    hide Step, Ran, RanDisk, Written, RestoreActions, Admissible, BridgeIdOf, HexOf, NothingNewer, ImportsApart,
         CheckTarget, CheckResult, Covered, OnFlash, NoneMistaken, InStep, Sound, Listed, Padded;
    var s := sys.replica.value;
    RestoreIsAdmissible(cfg, s.bridgeId, sys, disk, s, luck);
    RestoreRan(cfg, s.bridgeId, sys, s, luck);
    RunKeepsGood(cfg, s.bridgeId, sys, disk, RestoreActions(s, luck));
    if RestoreRun(cfg, sys.device, s, luck).0 == None {
      RestoreIsSound(cfg, sys.device, s, luck, sys.device.ram.reg.bridgeId);
      RestoredListing(cfg, sys.device, s, luck);
    }
  }

  lemma {:induction false} RestoredListing(cfg: Config, m: Machine, s: Snapshot, luck: nat -> nat)
    requires Sound(cfg, m.ram.reg) && s.commands != [] && RestoreRun(cfg, m, s, luck).0 == None
    ensures var ram := RestoreRun(cfg, m, s, luck).1.ram;
            RestoredExactly(cfg, RestoreRun(cfg, m, s, luck).1, s, m.ram.reg.revision) ==>
              Listed(ram.reg.slots) == s.commands
  {
    hide Written, BridgeIdOf, HexOf, InStep, Sound, ListedUpTo;
    var m' := RestoreRun(cfg, m, s, luck).1;
    if RestoredExactly(cfg, m', s, m.ram.reg.revision) {
      AllOccupied(s.commands, m'.ram.reg.slots);
      ListedPrefix(m'.ram.reg.slots, s.commands, |m'.ram.reg.slots|);
    }
  }

  lemma {:induction false} ListedPrefix(slots: seq<Command>, commands: seq<Command>, n: nat)
    requires |commands| <= |slots| && n <= |slots|
    requires forall i :: 0 <= i < |slots| ==> slots[i] == if i < |commands| then commands[i] else FREE
    requires forall i :: 0 <= i < |commands| ==> commands[i].Occupied()
    ensures ListedUpTo(slots, n) == if n <= |commands| then commands[..n] else commands
    decreases n
  {
    hide ListedUpTo;
    NoneListed(slots);
    if n != 0 {
      ListedPrefix(slots, commands, n - 1);
      ListedOne(slots, commands, n - 1);
    }
  }

  lemma {:induction false} NoneListed(slots: seq<Command>)
    ensures ListedUpTo(slots, 0) == []
  {
  }

  lemma {:induction false} ListedOne(slots: seq<Command>, commands: seq<Command>, i: nat)
    requires i < |slots| && slots[i] == if i < |commands| then commands[i] else FREE
    requires i < |commands| ==> commands[i].Occupied()
    ensures ListedUpTo(slots, i + 1) ==
            ListedUpTo(slots, i) + if i < |commands| then [commands[i]] else []
    ensures i < |commands| ==> commands[..i + 1] == commands[..i] + [commands[i]]
    ensures commands[..|commands|] == commands
  {
  }
}

/**
 * Home Assistant's replica of the registry. A refresh reads the status and then exports one command
 * at a time, while the device is free to change, lose power or be replaced between any two calls,
 * and any number of refreshes may be in flight.
 */
module Replica {
  import opened Bytes
  import opened RegistryModel
  import opened Refinement
  import opened Layout
  import opened Flash
  import opened Recovery
  import opened Runs
  import opened Durable
  import opened Bridge
  import opened Restore

  // ---- One refresh --------------------------------------------------------------------------

  /** The answer to one export call; `Unavailable` is a transport error. */
  datatype Reply = Found(command: Command) | Missing | Unavailable

  /** Whether a status calls for a new export. */
  predicate Wants(bridgeId: string, current: Option<Snapshot>, status: Status) {
    && status.bridgeId == bridgeId
    && !status.restoreIncomplete
    && !(current.Some? && current.value.bridgeId == status.bridgeId && current.value.revision == status.revision)
  }

  /** All replies when every one of them found its command. */
  function ExportedAll(replies: seq<Reply>): Option<seq<Command>> {
    if replies == [] then Some([])
    else
      var last := replies[|replies| - 1];
      match ExportedAll(replies[..|replies| - 1])
      case None => None
      case Some(commands) => if last.Found? then Some(commands + [last.command]) else None
  }

  function Refreshed(bridgeId: string, current: Option<Snapshot>, status: Status, replies: seq<Reply>)
    : Option<Snapshot>
  {
    if !Wants(bridgeId, current, status) then current
    else
      match ExportedAll(replies)
      case None => current
      case Some(commands) => Some(Snapshot(status.bridgeId, status.revision, status.nextId, commands))
  }

  /** What the answers hold. */
  function Answers(replies: seq<Reply>): (commands: seq<Command>)
    requires forall i :: 0 <= i < |replies| ==> replies[i].Found?
    ensures |commands| == |replies|
    ensures forall i :: 0 <= i < |replies| ==> commands[i] == replies[i].command
  {
    seq(|replies|, i requires 0 <= i < |replies| => replies[i].command)
  }

  /** A replica of this bridge at this revision. */
  predicate Carries(replica: Option<Snapshot>, bridgeId: string, revision: int) {
    replica.Some? && replica.value.bridgeId == bridgeId && replica.value.revision == revision
  }

  /** When a refresh replaces the replica, and by what. */
  lemma {:induction false} RefreshedWhen(bridgeId: string, current: Option<Snapshot>, status: Status,
                                         replies: seq<Reply>)
    ensures var after := Refreshed(bridgeId, current, status, replies);
            if status.bridgeId == bridgeId && !status.restoreIncomplete &&
               !Carries(current, bridgeId, status.revision) &&
               (forall i :: 0 <= i < |replies| ==> replies[i].Found?) then
              after == Some(Snapshot(bridgeId, status.revision, status.nextId, Answers(replies)))
            else
              after == current
  {
    if forall i :: 0 <= i < |replies| ==> replies[i].Found? {
      AllFound(replies, Answers(replies), |replies|);
      assert replies[..|replies|] == replies && Answers(replies)[..|replies|] == Answers(replies);
    } else {
      var i :| 0 <= i < |replies| && !replies[i].Found?;
      PartialRefreshKeepsReplica(bridgeId, current, status, replies, i);
    }
  }

  class SnapshotManager {
    const bridgeId: string
    var snapshot: Option<Snapshot>

    constructor (bridgeId: string, loaded: Option<Snapshot>)
      ensures this.bridgeId == bridgeId && snapshot == loaded
    {
      this.bridgeId, snapshot := bridgeId, loaded;
    }

    /**
     * `replies[i]` is what the bridge answers when asked for `status.listing[i]`. The replica changes only for
     * this bridge, with no restore open, a token it does not carry yet and every answer in; and then it is
     * the answers under the status.
     */
    method Refresh(status: Status, replies: seq<Reply>)
      requires |replies| == |status.listing|
      modifies this
      ensures snapshot == Refreshed(bridgeId, old(snapshot), status, replies)
      ensures status.bridgeId != bridgeId || status.restoreIncomplete ==> snapshot == old(snapshot)
      ensures Carries(old(snapshot), bridgeId, status.revision) ==> snapshot == old(snapshot)
      ensures (exists i :: 0 <= i < |replies| && !replies[i].Found?) ==> snapshot == old(snapshot)
      ensures (&& status.bridgeId == bridgeId && !status.restoreIncomplete
               && !Carries(old(snapshot), bridgeId, status.revision)
               && forall i :: 0 <= i < |replies| ==> replies[i].Found?) ==>
                snapshot == Some(Snapshot(bridgeId, status.revision, status.nextId, Answers(replies)))
    {
      RefreshedWhen(bridgeId, snapshot, status, replies);
      if status.bridgeId != bridgeId || status.restoreIncomplete {
        return;
      }
      if snapshot.Some? && snapshot.value.bridgeId == status.bridgeId && snapshot.value.revision == status.revision {
        return;
      }
      var exported := ExportAll(status, replies);
      if exported.Some? {
        snapshot := Some(Snapshot(status.bridgeId, status.revision, status.nextId, exported.value));
      }
    }

    method ExportAll(status: Status, replies: seq<Reply>) returns (commands: Option<seq<Command>>)
      requires |replies| == |status.listing|
      ensures commands == ExportedAll(replies)
    {
      var exported: seq<Command> := [];
      for i := 0 to |status.listing|
        invariant ExportedAll(replies[..i]) == Some(exported)
      {
        assert replies[..i + 1][..i] == replies[..i];
        if !replies[i].Found? {
          OneMissing(replies, i + 1);
          return None;
        }
        exported := exported + [replies[i].command];
      }
      assert replies[..|replies|] == replies;
      commands := Some(exported);
    }
  }

  lemma {:induction false} OneMissing(replies: seq<Reply>, n: nat)
    requires n <= |replies| && ExportedAll(replies[..n]).None?
    ensures ExportedAll(replies).None?
    decreases |replies| - n
  {
    if n < |replies| {
      assert replies[..n + 1][..n] == replies[..n];
      OneMissing(replies, n + 1);
    } else {
      assert replies[..n] == replies;
    }
  }

  /** A refresh whose every export answered stores exactly the answers, under the status it began with. */
  lemma {:induction false} CompleteRefresh(bridgeId: string, current: Option<Snapshot>, status: Status,
                                           commands: seq<Command>)
    requires Wants(bridgeId, current, status)
    ensures var replies := seq(|commands|, i requires 0 <= i < |commands| => Found(commands[i]));
            Refreshed(bridgeId, current, status, replies) ==
            Some(Snapshot(status.bridgeId, status.revision, status.nextId, commands))
  {
    var replies := seq(|commands|, i requires 0 <= i < |commands| => Found(commands[i]));
    AllFound(replies, commands, |commands|);
    assert replies[..|replies|] == replies && commands[..|commands|] == commands;
  }

  lemma {:induction false} AllFound(replies: seq<Reply>, commands: seq<Command>, n: nat)
    requires n <= |replies| == |commands| && forall i :: 0 <= i < |commands| ==> replies[i] == Found(commands[i])
    ensures ExportedAll(replies[..n]) == Some(commands[..n])
  {
    if n != 0 {
      AllFound(replies, commands, n - 1);
      assert replies[..n][..n - 1] == replies[..n - 1];
      assert commands[..n] == commands[..n - 1] + [commands[n - 1]];
    }
  }

  /** A refresh that misses any command keeps the replica it had, whole. */
  lemma {:induction false} PartialRefreshKeepsReplica(bridgeId: string, current: Option<Snapshot>, status: Status,
                                                      replies: seq<Reply>, i: nat)
    requires i < |replies| && !replies[i].Found?
    ensures Refreshed(bridgeId, current, status, replies) == current
  {
    assert replies[..i + 1][..i] == replies[..i];
    OneMissing(replies, i + 1);
  }

  // ---- Device, replica and refreshes in flight ----------------------------------------------

  /** What one refresh has read so far, or what the replica holds. */
  datatype Copy = Copy(bridgeId: string, revision: int, nextId: u32, listing: seq<u32>, exported: seq<Command>)

  datatype System = System(device: Machine, replica: Option<Snapshot>, jobs: seq<Copy>)

  datatype Action = Device(event: Event) | Poll | Export(job: nat) | Abandon(job: nat) | Finish(job: nat)

  function CopyOf(s: Snapshot): Copy {
    Copy(s.bridgeId, s.revision, s.nextId, Ids(s.commands), s.commands)
  }

  function Without(jobs: seq<Copy>, j: nat): seq<Copy>
    requires j < |jobs|
  {
    jobs[..j] + jobs[j + 1..]
  }

  function Next(cfg: Config, bridgeId: string, sys: System, a: Action): System {
    match a
    case Device(event) => sys.(device := Step(cfg, sys.device, event))
    case Poll =>
      var status := StatusOf(cfg, sys.device.ram);
      if Wants(bridgeId, sys.replica, status) then
        sys.(jobs := sys.jobs + [Copy(status.bridgeId, status.revision, status.nextId, status.listing, [])])
      else sys
    case Export(j) =>
      if j < |sys.jobs| && |sys.jobs[j].exported| < |sys.jobs[j].listing| then
        var c := sys.jobs[j];
        match ExportById(sys.device.ram, c.listing[|c.exported|])
        case None => sys.(jobs := Without(sys.jobs, j))
        case Some(command) => sys.(jobs := sys.jobs[j := c.(exported := c.exported + [command])])
      else sys
    case Abandon(j) => if j < |sys.jobs| then sys.(jobs := Without(sys.jobs, j)) else sys
    case Finish(j) =>
      if j < |sys.jobs| && |sys.jobs[j].exported| == |sys.jobs[j].listing| then
        var c := sys.jobs[j];
        sys.(replica := Some(Snapshot(c.bridgeId, c.revision, c.nextId, c.exported)), jobs := Without(sys.jobs, j))
      else sys
  }

  function Ran(cfg: Config, bridgeId: string, sys: System, actions: seq<Action>): System
    decreases |actions|
  {
    if actions == [] then sys else Ran(cfg, bridgeId, Next(cfg, bridgeId, sys, actions[0]), actions[1..])
  }

  predicate IsCopy(sys: System, c: Copy) {
    c in sys.jobs || (sys.replica.Some? && c == CopyOf(sys.replica.value))
  }

  /** Every copy, stored or on its way, is of this bridge. */
  ghost predicate OwnCopies(bridgeId: string, sys: System) {
    forall c :: IsCopy(sys, c) ==> c.bridgeId == bridgeId
  }

  /**
   * Whatever hardware answers, a replica never takes the commands of another bridge: over any run at all,
   * with resets, restores under other identities and replaced boards, every copy stays one of this bridge.
   */
  lemma {:induction false} ForeignHardwareIsIgnored(cfg: Config, bridgeId: string, sys: System, actions: seq<Action>)
    requires OwnCopies(bridgeId, sys)
    ensures OwnCopies(bridgeId, Ran(cfg, bridgeId, sys, actions))
    decreases |actions|
  {
    hide OwnCopies, Next;
    if actions != [] {
      CopiesStayOwn(cfg, bridgeId, sys, actions[0]);
      ForeignHardwareIsIgnored(cfg, bridgeId, Next(cfg, bridgeId, sys, actions[0]), actions[1..]);
    }
  }

  lemma {:induction false} CopiesStayOwn(cfg: Config, bridgeId: string, sys: System, a: Action)
    requires OwnCopies(bridgeId, sys)
    ensures OwnCopies(bridgeId, Next(cfg, bridgeId, sys, a))
  {
    hide Step, HexOf, ExportById, Listed;
    var sys' := Next(cfg, bridgeId, sys, a);
    forall c | IsCopy(sys', c)
      ensures c.bridgeId == bridgeId
    {
      if a.Export? && a.job < |sys.jobs| {
        assert IsCopy(sys, sys.jobs[a.job]);
      } else if a.Finish? && a.job < |sys.jobs| {
        assert IsCopy(sys, sys.jobs[a.job]);
      }
      assert IsCopy(sys, c) || c.bridgeId == bridgeId;
    }
  }

  // ---- What the device is allowed to do -----------------------------------------------------

  /** A commit and a clear both close an open restore, and the adopted identity stays. */
  predicate Closes(ram: Ram, op: Op) {
    !ram.readOnly && ram.reg.restoreState != 0 && (op.RestoreCommit? || op.ClearAll?)
  }

  /** The revision under which it is closed. */
  function ClosedRevision(ram: Ram, op: Op): int {
    (if op.RestoreCommit? then Max(op.sourceRevision, ram.reg.revision) else ram.reg.revision) + 1
  }

  /**
   * The logical bridge's revisions only advance: a restore is closed, by a commit or a clear, under a
   * revision no copy of the adopted identity has reached, and a freshly minted identity is one no copy
   * carries.
   */
  ghost predicate Advancing(sys: System, e: Event) {
    && (Closes(sys.device.ram, e.op) ==>
          forall c :: IsCopy(sys, c) && c.bridgeId == HexOf(sys.device.ram.reg.bridgeId) ==>
            c.revision < ClosedRevision(sys.device.ram, e.op))
    && (e.op.FactoryReset? ==> forall c :: IsCopy(sys, c) ==> c.bridgeId != HexOf(e.op.minted))
  }

  /** What flash describes after an action. */
  function NextDisk(cfg: Config, sys: System, disk: Registry, a: Action): Registry {
    if a.Device? then DiskAfter(cfg, sys.device, disk, a.event) else disk
  }

  /** Runs of clean events that advance the logical bridge. `disk` is what flash describes to begin with. */
  ghost predicate Admissible(cfg: Config, bridgeId: string, sys: System, disk: Registry, actions: seq<Action>)
    decreases |actions|
  {
    actions == [] ||
    (&& (actions[0].Device? ==> Clean(cfg, sys.device, disk, actions[0].event) && Advancing(sys, actions[0].event))
     && Admissible(cfg, bridgeId, Next(cfg, bridgeId, sys, actions[0]), NextDisk(cfg, sys, disk, actions[0]),
                   actions[1..]))
  }

  function RanDisk(cfg: Config, bridgeId: string, sys: System, disk: Registry, actions: seq<Action>): Registry
    decreases |actions|
  {
    if actions == [] then disk
    else
      RanDisk(cfg, bridgeId, Next(cfg, bridgeId, sys, actions[0]), NextDisk(cfg, sys, disk, actions[0]), actions[1..])
  }

  // ---- The invariant ------------------------------------------------------------------------

  /** A copy is behind the bridge it was read from, or an exact prefix of it. */
  predicate Faithful(ram: Ram, c: Copy) {
    Readable(ram) && HexOf(ram.reg.bridgeId) == c.bridgeId ==>
      && c.revision <= ram.reg.revision
      && (c.revision == ram.reg.revision ==>
            && c.nextId == ram.reg.nextId
            && c.listing == Ids(Listed(ram.reg.slots)) && c.exported <= Listed(ram.reg.slots))
  }

  /** What a boot that finds `disk` whole holds. */
  function Booted(disk: Registry): Ram {
    Ram(disk, false, NoFault)
  }

  /** A session no reset has touched is read-only because of what flash holds: the next boot is read-only too. */
  ghost predicate Stuck(cfg: Config, m: Machine, disk: Registry) {
    m.ram.readOnly && !InStep(cfg, m.records, disk)
  }

  /**
   * A copy is faithful to RAM and to what the next boot would find; and while RAM still has a restore open
   * that flash has already closed, no copy has reached the closed revision.
   */
  ghost predicate Covered(cfg: Config, m: Machine, disk: Registry, c: Copy) {
    && Faithful(m.ram, c)
    && (!Stuck(cfg, m, disk) ==> Faithful(Booted(disk), c))
    && (m.ram.reg.restoreState != 0 && disk.restoreState == 0 && HexOf(disk.bridgeId) == c.bridgeId ==>
          c.revision < disk.revision)
  }

  ghost predicate Good(cfg: Config, sys: System, disk: Registry) {
    Kept(cfg, sys.device, disk) && forall c :: IsCopy(sys, c) ==> Covered(cfg, sys.device, disk, c)
  }

  // ---- Device steps -------------------------------------------------------------------------

  /** Every way a write can change what a reader sees. */
  predicate Moved(ram: Ram, ram': Ram, op: Op) {
    || !Readable(ram')
    || (op.FactoryReset? && ram'.reg.bridgeId == op.minted)
    || (Readable(ram) && ram'.reg.bridgeId == ram.reg.bridgeId && ram.reg.revision < ram'.reg.revision)
    || (Closes(ram, op) && ram'.reg.bridgeId == ram.reg.bridgeId && ram'.reg.revision == ClosedRevision(ram, op))
  }

  lemma {:induction false} PlanMoves(cfg: Config, ram: Ram, op: Op)
    requires Sound(cfg, ram.reg) && PlanOf(cfg, ram, op).Write?
    ensures Moved(ram, Booted(PlanOf(cfg, ram, op).next.reg), op)
    ensures !op.FactoryReset? && ram.reg.restoreState != 0 && PlanOf(cfg, ram, op).next.reg.restoreState == 0 ==>
              Closes(ram, op) && PlanOf(cfg, ram, op).next.reg.revision == ClosedRevision(ram, op)
  {
    hide Sound, ValidateName, First, ProjectedBytes, Occupancy;
  }

  lemma {:induction false} MovedStaysFaithful(sys: System, ram': Ram, e: Event, c: Copy)
    requires IsCopy(sys, c) && Faithful(sys.device.ram, c) && Advancing(sys, e)
    requires Moved(sys.device.ram, ram', e.op)
    ensures Faithful(ram', c)
  {
    hide HexOf, Listed, Ids;
  }

  /** Reading other RAM of the same registry, or an unreadable one, is no less faithful. */
  lemma {:induction false} FaithfulToTheSame(ram: Ram, ram': Ram, c: Copy)
    requires Faithful(ram, c) && (Readable(ram') ==> Readable(ram) && ram'.reg == ram.reg)
    ensures Faithful(ram', c)
  {
    hide HexOf, Listed, Ids;
  }

  /** Flash after an attempt is faithful to every copy, unless the session is stuck. */
  lemma {:induction false} DiskCovers(cfg: Config, sys: System, disk: Registry, e: Event, c: Copy)
    requires Good(cfg, sys, disk) && Advancing(sys, e) && IsCopy(sys, c)
    ensures var after := Attempt(cfg, sys.device, e);
            !Stuck(cfg, Machine(after.ram, after.records), DiskAfter(cfg, sys.device, disk, e)) ==>
              Faithful(Booted(DiskAfter(cfg, sys.device, disk, e)), c)
  {
    hide Faithful, Advancing, InStep, Moved, PlanOf, Sound, Described, OnFlash, NoneMistaken, Attempt;
    var m := sys.device;
    var plan := PlanOf(cfg, m.ram, e.op);
    assert Covered(cfg, m, disk, c);
    if plan.Write? && CommitPoint(plan) <= e.landed {
      PlanMoves(cfg, m.ram, e.op);
      MovedStaysFaithful(sys, Booted(plan.next.reg), e, c);
    } else if Stuck(cfg, m, disk) {
      StuckStays(cfg, m, e);
    }
  }

  lemma {:induction false} StuckStays(cfg: Config, m: Machine, e: Event)
    requires Sound(cfg, m.ram.reg) && m.ram.readOnly
    requires PlanOf(cfg, m.ram, e.op).Write? ==> e.landed < CommitPoint(PlanOf(cfg, m.ram, e.op))
    ensures Attempt(cfg, m, e).records == m.records && Attempt(cfg, m, e).ram.readOnly
  {
    hide PlanOf, Sound, Saved, SavesOf;
    if PlanOf(cfg, m.ram, e.op).Write? {
      NextIsMinted(cfg, m, e.op);
      ResetIsShort(cfg, m.ram, e.op);
      SaveCount(cfg, m.ram, e.op);
      AttemptRecords(cfg, m, e);
    }
  }

  /** No copy is of an identity just minted. */
  lemma {:induction false} MintedIsFresh(cfg: Config, sys: System, ram: Ram, e: Event, c: Copy)
    requires Advancing(sys, e) && IsCopy(sys, c) && e.op.FactoryReset? && ram.reg == Minted(cfg, e.op.minted)
    ensures Faithful(ram, c)
  {
    hide HexOf, Listed, Ids;
  }

  /** RAM after an attempt that the device outlives is faithful to every copy. */
  lemma {:induction false} RamCovers(cfg: Config, sys: System, disk: Registry, e: Event, c: Copy)
    requires Good(cfg, sys, disk) && Clean(cfg, sys.device, disk, e) && Advancing(sys, e) && IsCopy(sys, c) && e.Do?
    ensures Faithful(Step(cfg, sys.device, e).ram, c)
  {
    hide Faithful, Advancing, InStep, Moved, PlanOf, Sound, Described, OnFlash, NoneMistaken, Apart, Saved, SavesOf,
         Clean, Stuck;
    var m, m' := sys.device, Step(cfg, sys.device, e);
    var plan := PlanOf(cfg, m.ram, e.op);
    assert Covered(cfg, m, disk, c);
    if plan.Write? {
      NextIsMinted(cfg, m, e.op);
      SaveCount(cfg, m.ram, e.op);
      if e.landed <= CommitPoint(plan) {
        RolledBack(cfg, m, disk, e);
        if e.op.FactoryReset? {
          MintedIsFresh(cfg, sys, m'.ram, e, c);
        }
      } else {
        PlanMoves(cfg, m.ram, e.op);
        PlanShape(cfg, m.ram, e.op);
        MovedStaysFaithful(sys, Booted(plan.next.reg), e, c);
        FaithfulToTheSame(Booted(plan.next.reg), m'.ram, c);
      }
    }
  }

  /** Where flash has closed a restore that RAM has not, no copy has reached it. */
  lemma {:induction false} ClosedAhead(cfg: Config, sys: System, disk: Registry, e: Event, c: Copy)
    requires Good(cfg, sys, disk) && Clean(cfg, sys.device, disk, e) && Advancing(sys, e) && IsCopy(sys, c) && e.Do?
    ensures var m', disk' := Step(cfg, sys.device, e), DiskAfter(cfg, sys.device, disk, e);
            m'.ram.reg.restoreState != 0 && disk'.restoreState == 0 && HexOf(disk'.bridgeId) == c.bridgeId ==>
              c.revision < disk'.revision
  {
    hide Faithful, InStep, Moved, PlanOf, Sound, Described, OnFlash, NoneMistaken, Apart, Saved, SavesOf, Clean,
         Stuck, HexOf;
    var m := sys.device;
    var plan := PlanOf(cfg, m.ram, e.op);
    assert Covered(cfg, m, disk, c);
    if plan.Write? {
      NextIsMinted(cfg, m, e.op);
      SaveCount(cfg, m.ram, e.op);
      PlanMoves(cfg, m.ram, e.op);
      if e.landed <= CommitPoint(plan) {
        RolledBack(cfg, m, disk, e);
      }
    }
  }

  lemma {:induction false} BootCovers(cfg: Config, records: Records, disk: Registry, minted: BridgeId, landed: nat,
                                      c: Copy)
    requires OnFlash(cfg, records, disk) && (InStep(cfg, records, disk) ==> Faithful(Booted(disk), c))
    ensures var started := Reboot(cfg, records, minted, landed);
            Covered(cfg, Machine(started.ram, started.records), disk, c)
  {
    hide Faithful, InStep, Reboot, HexOf;
    BootTells(cfg, records, disk, minted, landed);
    RebootKeeps(cfg, records, disk, minted, landed);
    NotReadable(Reboot(cfg, records, minted, landed).ram, c);
  }

  lemma {:induction false} NotReadable(ram: Ram, c: Copy)
    ensures !Readable(ram) ==> Faithful(ram, c)
  {
  }

  // ---- The invariant is kept ----------------------------------------------------------------

  lemma {:induction false} DeviceKeepsGood(cfg: Config, bridgeId: string, sys: System, disk: Registry, e: Event)
    requires Good(cfg, sys, disk) && Clean(cfg, sys.device, disk, e) && Advancing(sys, e)
    ensures Good(cfg, Next(cfg, bridgeId, sys, Device(e)), NextDisk(cfg, sys, disk, Device(e)))
  {
    hide Kept, OnFlash, Clean, Faithful, Advancing, Attempt, DiskAfter, Reboot, InStep, HexOf;
    EventKeeps(cfg, sys.device, disk, e);
    var sys' := Next(cfg, bridgeId, sys, Device(e));
    var disk' := NextDisk(cfg, sys, disk, Device(e));
    if e.PowerCut? {
      AttemptOnFlash(cfg, sys.device, disk, e);
    }
    forall c | IsCopy(sys', c)
      ensures Covered(cfg, sys'.device, disk', c)
    {
      assert IsCopy(sys, c);
      DiskCovers(cfg, sys, disk, e, c);
      if e.Do? {
        RamCovers(cfg, sys, disk, e, c);
        ClosedAhead(cfg, sys, disk, e, c);
      } else {
        BootCovers(cfg, Attempt(cfg, sys.device, e).records, disk', e.minted, e.bootLanded, c);
      }
    }
  }

  /** A copy just begun. */
  lemma {:induction false} PollCovers(cfg: Config, m: Machine, disk: Registry, c: Copy)
    requires Kept(cfg, m, disk) && m.ram.reg.restoreState == 0
    requires var reg := m.ram.reg;
             c == Copy(HexOf(reg.bridgeId), reg.revision, reg.nextId, Ids(Listed(reg.slots)), [])
    ensures Covered(cfg, m, disk, c)
  {
    hide HexOf, Listed, Ids, InStep, OnFlash, NoneMistaken, Sound, Described;
    if HexOf(disk.bridgeId) == HexOf(m.ram.reg.bridgeId) {
      HexInjective(disk.bridgeId, m.ram.reg.bridgeId);
      if m.ram.readOnly && InStep(cfg, m.records, disk) {
        BothMinted(cfg, m, disk);
      }
    }
  }

  /** A read-only session over a flash that would load: an unfinished reset, fresh on both sides. */
  lemma {:induction false} BothMinted(cfg: Config, m: Machine, disk: Registry)
    requires Kept(cfg, m, disk) && m.ram.readOnly && InStep(cfg, m.records, disk)
    ensures m.ram.reg == Minted(cfg, m.ram.reg.bridgeId) && disk == Minted(cfg, disk.bridgeId)
  {
    hide InStep, NoneMistaken, Sound, Described;
  }

  lemma {:induction false} PollKeepsGood(cfg: Config, bridgeId: string, sys: System, disk: Registry)
    requires Good(cfg, sys, disk)
    ensures Good(cfg, Next(cfg, bridgeId, sys, Poll), disk)
  {
    hide Kept, Covered, HexOf, Listed, Ids;
    var sys' := Next(cfg, bridgeId, sys, Poll);
    var status := StatusOf(cfg, sys.device.ram);
    var started := Copy(status.bridgeId, status.revision, status.nextId, status.listing, []);
    if Wants(bridgeId, sys.replica, status) {
      PollCovers(cfg, sys.device, disk, started);
    }
    forall c | IsCopy(sys', c)
      ensures Covered(cfg, sys'.device, disk, c)
    {
      assert IsCopy(sys, c) || (c == started && Wants(bridgeId, sys.replica, status));
    }
  }

  lemma {:induction false} ExportStaysFaithful(cfg: Config, ram: Ram, c: Copy)
    requires Sound(cfg, ram.reg) && Faithful(ram, c) && |c.exported| < |c.listing|
    requires ExportById(ram, c.listing[|c.exported|]).Some?
    ensures Faithful(ram, c.(exported := c.exported + [ExportById(ram, c.listing[|c.exported|]).value]))
  {
    hide HexOf;
    var k := |c.exported|;
    if Readable(ram) && HexOf(ram.reg.bridgeId) == c.bridgeId && c.revision == ram.reg.revision {
      ExportOfListed(ram.reg.slots, k);
      assert c.exported + [Listed(ram.reg.slots)[k]] == Listed(ram.reg.slots)[..k + 1];
    }
  }

  /** Whatever RAM answers, the copy stays faithful to flash as well. */
  lemma {:induction false} ExportCovers(cfg: Config, m: Machine, disk: Registry, c: Copy)
    requires Kept(cfg, m, disk) && Covered(cfg, m, disk, c) && |c.exported| < |c.listing|
    requires ExportById(m.ram, c.listing[|c.exported|]).Some?
    ensures Covered(cfg, m, disk, c.(exported := c.exported + [ExportById(m.ram, c.listing[|c.exported|]).value]))
  {
    hide HexOf, Listed, Ids, InStep, OnFlash, NoneMistaken, Described, Sound;
    var reg, id := m.ram.reg, c.listing[|c.exported|];
    ExportStaysFaithful(cfg, m.ram, c);
    var sameToken := HexOf(disk.bridgeId) == c.bridgeId && c.revision == disk.revision;
    if !Stuck(cfg, m, disk) && disk.restoreState == 0 && sameToken {
      if disk.bridgeId != reg.bridgeId {
        NothingExported(cfg, m.ram, id);
      } else if m.ram.readOnly {
        BothMinted(cfg, m, disk);
        NothingExported(cfg, m.ram, id);
      } else {
        assert reg == disk;
        ExportStaysFaithful(cfg, Booted(disk), c);
      }
    }
  }

  lemma {:induction false} NothingExported(cfg: Config, ram: Ram, id: u32)
    requires ram.reg.slots == EmptySlots(cfg)
    ensures ExportById(ram, id) == None
  {
  }

  lemma {:induction false} ExportKeepsGood(cfg: Config, bridgeId: string, sys: System, disk: Registry, j: nat)
    requires Good(cfg, sys, disk)
    ensures Good(cfg, Next(cfg, bridgeId, sys, Export(j)), disk)
  {
    hide Kept, Covered, ExportById;
    if j < |sys.jobs| && |sys.jobs[j].exported| < |sys.jobs[j].listing| {
      var c := sys.jobs[j];
      var sys' := Next(cfg, bridgeId, sys, Export(j));
      var reply := ExportById(sys.device.ram, c.listing[|c.exported|]);
      assert IsCopy(sys, c);
      if reply.Some? {
        ExportCovers(cfg, sys.device, disk, c);
      }
      forall d | IsCopy(sys', d)
        ensures Covered(cfg, sys'.device, disk, d)
      {
        assert IsCopy(sys, d) || (reply.Some? && d == c.(exported := c.exported + [reply.value]));
      }
    }
  }

  lemma {:induction false} FinishStaysFaithful(ram: Ram, c: Copy)
    requires Faithful(ram, c) && |c.exported| == |c.listing|
    ensures Faithful(ram, CopyOf(Snapshot(c.bridgeId, c.revision, c.nextId, c.exported)))
  {
    hide HexOf;
  }

  lemma {:induction false} FinishKeepsGood(cfg: Config, bridgeId: string, sys: System, disk: Registry, j: nat)
    requires Good(cfg, sys, disk)
    ensures Good(cfg, Next(cfg, bridgeId, sys, Finish(j)), disk)
  {
    hide HexOf, Faithful, Kept, Stuck;
    if j < |sys.jobs| && |sys.jobs[j].exported| == |sys.jobs[j].listing| {
      var c := sys.jobs[j];
      var sys' := Next(cfg, bridgeId, sys, Finish(j));
      var finished := CopyOf(Snapshot(c.bridgeId, c.revision, c.nextId, c.exported));
      assert IsCopy(sys, c);
      FinishStaysFaithful(sys.device.ram, c);
      if !Stuck(cfg, sys.device, disk) {
        FinishStaysFaithful(Booted(disk), c);
      }
      forall d | IsCopy(sys', d)
        ensures Covered(cfg, sys'.device, disk, d)
      {
        assert IsCopy(sys, d) || d == finished;
      }
    }
  }

  lemma {:induction false} ActionKeepsGood(cfg: Config, bridgeId: string, sys: System, disk: Registry, a: Action)
    requires Good(cfg, sys, disk)
    requires a.Device? ==> Clean(cfg, sys.device, disk, a.event) && Advancing(sys, a.event)
    ensures Good(cfg, Next(cfg, bridgeId, sys, a), NextDisk(cfg, sys, disk, a))
  {
    hide Kept, Covered, Clean, Advancing;
    match a
    case Device(e) => DeviceKeepsGood(cfg, bridgeId, sys, disk, e);
    case Poll => PollKeepsGood(cfg, bridgeId, sys, disk);
    case Export(j) => ExportKeepsGood(cfg, bridgeId, sys, disk, j);
    case Abandon(j) =>
      var sys' := Next(cfg, bridgeId, sys, a);
      forall d | IsCopy(sys', d)
        ensures Covered(cfg, sys'.device, disk, d)
      {
        assert IsCopy(sys, d);
      }
    case Finish(j) => FinishKeepsGood(cfg, bridgeId, sys, disk, j);
  }

  lemma {:induction false} RunKeepsGood(cfg: Config, bridgeId: string, sys: System, disk: Registry,
                                        actions: seq<Action>)
    requires Good(cfg, sys, disk) && Admissible(cfg, bridgeId, sys, disk, actions)
    ensures Good(cfg, Ran(cfg, bridgeId, sys, actions), RanDisk(cfg, bridgeId, sys, disk, actions))
    decreases |actions|
  {
    hide Good, Next, Clean, Advancing, NextDisk;
    if actions != [] {
      ActionKeepsGood(cfg, bridgeId, sys, disk, actions[0]);
      RunKeepsGood(cfg, bridgeId, Next(cfg, bridgeId, sys, actions[0]), NextDisk(cfg, sys, disk, actions[0]),
                   actions[1..]);
    }
  }

  // ---- The theorem --------------------------------------------------------------------------

  /** The replica carries the device's current token. */
  predicate SameToken(ram: Ram, s: Snapshot) {
    s.bridgeId == HexOf(ram.reg.bridgeId) && s.revision == ram.reg.revision
  }

  /** A first boot whose identity write lands, seen by nobody yet, is a good start. */
  lemma {:induction false} FirstBootIsGood(cfg: Config, records: Records, minted: BridgeId, landed: nat)
    requires Load(records, HeaderKey, HEADER_BYTES).None? && landed >= 2
    ensures var started := Reboot(cfg, records, minted, landed);
            Good(cfg, System(Machine(started.ram, started.records), None, []), started.ram.reg)
  {
    hide Reboot, HeaderBytes, IndexBytes;
    FirstBootTracks(cfg, records, minted, landed);
  }

  /**
   * However refreshes, exports, operations, refused saves, power cuts and restores interleave: whenever the
   * replica carries the token of a readable device, it holds exactly that device's commands and counter.
   */
  lemma {:induction false} ReplicaIsExact(cfg: Config, bridgeId: string, sys: System, disk: Registry,
                                          actions: seq<Action>)
    requires Good(cfg, sys, disk) && Admissible(cfg, bridgeId, sys, disk, actions)
    ensures var end := Ran(cfg, bridgeId, sys, actions);
            end.replica.Some? && Readable(end.device.ram) && SameToken(end.device.ram, end.replica.value) ==>
              end.replica.value.commands == Listed(end.device.ram.reg.slots) &&
              end.replica.value.nextId == end.device.ram.reg.nextId
  {
    hide Kept, Next, Clean, Advancing, HexOf, Stuck, RanDisk;
    RunKeepsGood(cfg, bridgeId, sys, disk, actions);
    var end := Ran(cfg, bridgeId, sys, actions);
    if end.replica.Some? && Readable(end.device.ram) && SameToken(end.device.ram, end.replica.value) {
      ExactCopy(end.device.ram, end.replica.value, end);
    }
  }

  lemma {:induction false} ExactCopy(ram: Ram, s: Snapshot, sys: System)
    requires IsCopy(sys, CopyOf(s)) ==> Faithful(ram, CopyOf(s))
    requires sys.replica == Some(s) && Readable(ram) && SameToken(ram, s)
    ensures s.commands == Listed(ram.reg.slots) && s.nextId == ram.reg.nextId
  {
    hide HexOf, Listed;
    assert IsCopy(sys, CopyOf(s));
    assert |Ids(s.commands)| == |Ids(Listed(ram.reg.slots))|;
  }

  /** So a refresh that declines to export leaves no stale replica behind. */
  lemma {:induction false} SkippedRefreshIsCurrent(cfg: Config, bridgeId: string, sys: System, disk: Registry,
                                                   actions: seq<Action>)
    requires Good(cfg, sys, disk) && Admissible(cfg, bridgeId, sys, disk, actions)
    ensures var end := Ran(cfg, bridgeId, sys, actions);
            var status := StatusOf(cfg, end.device.ram);
            Readable(end.device.ram) && status.bridgeId == bridgeId && !Wants(bridgeId, end.replica, status) ==>
              end.replica.Some? && end.replica.value.commands == Listed(end.device.ram.reg.slots)
  {
    hide Good, Next, Clean, Advancing, HexOf, Listed;
    ReplicaIsExact(cfg, bridgeId, sys, disk, actions);
  }

  // ---- Why the conditions are needed --------------------------------------------------------

  /** An acknowledged commit or clear of an open restore: the registry is readable, under the closed revision. */
  lemma {:induction false} ClosingWrites(cfg: Config, m: Machine, op: Op, landed: nat)
    requires Sound(cfg, m.ram.reg) && !m.ram.readOnly && Closes(m.ram, op) && landed >= 2
    requires ClosedRevision(m.ram, op) <= REVISION_MAX
    ensures var ram := Step(cfg, m, Do(op, landed)).ram;
            && Readable(ram) && ram.reg.bridgeId == m.ram.reg.bridgeId && ram.reg.revision == ClosedRevision(m.ram, op)
            && ram.reg.slots == if op.ClearAll? then EmptySlots(cfg) else m.ram.reg.slots
  {
    hide Saved;
    SaveCount(cfg, m.ram, op);
  }

  /**
   * When closing a restore makes the change token repeat: exactly when a copy of the adopted identity
   * carries the revision it is closed under. The refresh then skips, whatever that copy holds.
   */
  lemma {:induction false} ClosingRepeatsTheTokenIff(cfg: Config, m: Machine, op: Op, replica: Snapshot, landed: nat)
    requires Sound(cfg, m.ram.reg) && !m.ram.readOnly && Closes(m.ram, op) && landed >= 2
    requires ClosedRevision(m.ram, op) <= REVISION_MAX
    ensures var ram := Step(cfg, m, Do(op, landed)).ram;
            && Readable(ram)
            && (SameToken(ram, replica) <==>
                  replica.bridgeId == HexOf(m.ram.reg.bridgeId) && replica.revision == ClosedRevision(m.ram, op))
            && (SameToken(ram, replica) ==> !Wants(replica.bridgeId, Some(replica), StatusOf(cfg, ram)))
  {
    hide HexOf, Step, Listed;
    ClosingWrites(cfg, m, op, landed);
  }

  /**
   * A commit that passes 0 for an unknown source revision continues the local sequence instead, and can
   * publish a revision under which a copy of the adopted bridge already holds something else.
   */
  lemma {:induction false} CommitWithoutSourceFoolsTheToken(cfg: Config, m: Machine, replica: Snapshot, landed: nat)
    requires Sound(cfg, m.ram.reg) && !m.ram.readOnly && m.ram.reg.restoreState != 0
    requires m.ram.reg.revision < REVISION_MAX && landed >= 2
    requires replica.bridgeId == HexOf(m.ram.reg.bridgeId) && replica.revision == m.ram.reg.revision + 1
    requires replica.commands != Listed(m.ram.reg.slots)
    ensures var ram := Step(cfg, m, Do(RestoreCommit(0), landed)).ram;
            && Readable(ram) && SameToken(ram, replica)
            && !Wants(replica.bridgeId, Some(replica), StatusOf(cfg, ram))
            && replica.commands != Listed(ram.reg.slots)
  {
    hide HexOf, Step, Listed;
    ClosingWrites(cfg, m, RestoreCommit(0), landed);
  }

  /**
   * An identity minted a second time: a factory reset restarts the revisions, and the first command learned
   * after it carries a token under which a copy of the earlier bridge holds another first command.
   */
  lemma {:induction false} RecycledIdentityFoolsTheToken(cfg: Config, m: Machine, minted: BridgeId, c: Command,
                                                         replica: Snapshot)
    requires Sound(cfg, m.ram.reg) && PutPlan(cfg, Booted(Minted(cfg, minted)), c).Write?
    requires replica.bridgeId == HexOf(minted) && replica.revision == 2
    requires replica.commands != [c.(id := COMMAND_ID_FIRST)]
    ensures var ram := After(cfg, m, [Do(FactoryReset(minted), 2), Do(Put(c), 3)]).ram;
            && Readable(ram) && SameToken(ram, replica)
            && !Wants(replica.bridgeId, Some(replica), StatusOf(cfg, ram))
            && Listed(ram.reg.slots) == [c.(id := COMMAND_ID_FIRST)]
  {
    hide HexOf, Saved, Step, PutPlan, ListedUpTo;
    var events := [Do(FactoryReset(minted), 2), Do(Put(c), 3)];
    var reset := Step(cfg, m, events[0]);
    ResetGives(cfg, m, minted);
    FirstPutGives(cfg, reset, minted, c);
    assert events[1..] == [events[1]];
    assert After(cfg, reset, [events[1]]) == Step(cfg, reset, events[1]);
  }

  lemma {:induction false} ResetGives(cfg: Config, m: Machine, minted: BridgeId)
    requires Sound(cfg, m.ram.reg)
    ensures Step(cfg, m, Do(FactoryReset(minted), 2)).ram == Booted(Minted(cfg, minted))
  {
    hide Saved;
    SaveCount(cfg, m.ram, FactoryReset(minted));
  }

  lemma {:induction false} FirstPutGives(cfg: Config, m: Machine, minted: BridgeId, c: Command)
    requires m.ram == Booted(Minted(cfg, minted)) && PutPlan(cfg, m.ram, c).Write?
    ensures var ram := Step(cfg, m, Do(Put(c), 3)).ram;
            && Readable(ram) && ram.reg.bridgeId == minted && ram.reg.revision == 2
            && Listed(ram.reg.slots) == [c.(id := COMMAND_ID_FIRST)]
  {
    hide Saved, ValidateName, ProjectedBytes, ListedUpTo;
    var slots := EmptySlots(cfg);
    EmptyIsSound(cfg, m.ram.reg);
    SaveCount(cfg, m.ram, Put(c));
    assert First(slots, ByName(c.name)) < 0;
    assert First(slots, AnyFree) == 0;
    ListedAlone(slots, c.(id := COMMAND_ID_FIRST), |slots|);
  }

  lemma {:induction false} ListedAlone(slots: seq<Command>, c: Command, n: nat)
    requires c.Occupied() && 1 <= n <= |slots| && forall i :: 0 <= i < |slots| ==> slots[i] == FREE
    ensures ListedUpTo(slots[0 := c], n) == [c]
  {
    var stored := slots[0 := c];
    if n == 1 {
      assert ListedUpTo(stored, 0) == [];
    } else {
      ListedAlone(slots, c, n - 1);
      assert stored[n - 1] == FREE;
    }
  }

  /**
   * A torn relearn whose waveform collides with the one it overwrote is not noticed at all: the command
   * replays the new waveform under the token of the old one.
   */
  lemma {:induction false} CollidingRelearnFoolsTheToken(cfg: Config, ram: Ram, records: Records, c: Command,
                                                         replica: Snapshot, minted: BridgeId)
    requires Sound(cfg, ram.reg) && InStep(cfg, records, ram.reg)
    requires PutPlan(cfg, ram, c).Write? && First(ram.reg.slots, ByName(c.name)) >= 0
    requires var had := ram.reg.slots[First(ram.reg.slots, ByName(c.name))].timings;
             Collides(had, c.timings) && had != c.timings
    requires SameToken(ram, replica) && replica.commands == Listed(ram.reg.slots)
    ensures var ram' := Reboot(cfg, CutRecords(cfg, ram, records, Put(c), 1), minted, 0).ram;
            && Readable(ram') && SameToken(ram', replica)
            && !Wants(replica.bridgeId, Some(replica), StatusOf(cfg, ram'))
            && replica.commands != Listed(ram'.reg.slots)
  {
    hide HexOf, IndexBytes, HeaderBytes, TimingBytes, Begin, CutRecords, Collides, Listed, ProjectedBytes,
         ValidateName, TimingsCrc;
    var s: nat := First(ram.reg.slots, ByName(c.name));
    RelearnConfined(cfg, ram, records, c, 1, minted, 0);
    ChangedListing(cfg, ram.reg, s, c.timings);
  }

  lemma {:induction false} ChangedListing(cfg: Config, reg: Registry, s: nat, timings: seq<i32>)
    requires Sound(cfg, reg) && s < |reg.slots| && reg.slots[s].Occupied() && reg.slots[s].timings != timings
    ensures Listed(reg.slots[s := reg.slots[s].(timings := timings)]) != Listed(reg.slots)
  {
    hide Sound, ListedUpTo, SlotSound;
    var changed := reg.slots[s].(timings := timings);
    var slots := reg.slots[s := changed];
    ListedMembers(reg.slots, |reg.slots|);
    ListedMembers(slots, |slots|);
    assert slots[s] == changed;
    assert changed in Listed(slots);
    if changed in Listed(reg.slots) {
      var i :| 0 <= i < |reg.slots| && reg.slots[i].Occupied() && reg.slots[i] == changed;
      OneOfAnId(cfg, reg, i, s);
    }
  }

  lemma {:induction false} OneOfAnId(cfg: Config, reg: Registry, i: nat, j: nat)
    requires Sound(cfg, reg) && i < |reg.slots| && j < |reg.slots|
    requires reg.slots[i].Occupied() && reg.slots[j].Occupied() && reg.slots[i].id == reg.slots[j].id
    ensures i == j
  {
  }

  /**
   * An abandoned restore: clearing it keeps the adopted identity on the local revision, so the emptied
   * registry can carry a token the replica already has for a full one, and the refresh skips it.
   */
  lemma {:induction false} AbandonedRestoreFoolsTheToken(cfg: Config, m: Machine, replica: Snapshot, landed: nat)
    requires Sound(cfg, m.ram.reg) && !m.ram.readOnly && m.ram.reg.restoreState != 0
    requires m.ram.reg.revision < REVISION_MAX && landed >= 2
    requires replica.bridgeId == HexOf(m.ram.reg.bridgeId) && replica.revision == m.ram.reg.revision + 1
    requires replica.commands != []
    ensures var ram := Step(cfg, m, Do(ClearAll, landed)).ram;
            && Readable(ram) && SameToken(ram, replica)
            && !Wants(replica.bridgeId, Some(replica), StatusOf(cfg, ram))
            && Listed(ram.reg.slots) == [] && replica.commands != Listed(ram.reg.slots)
  {
    hide HexOf, Saved;
    var op := ClearAll;
    SaveCount(cfg, m.ram, op);
    var ram := Step(cfg, m, Do(op, landed)).ram;
    assert ram.reg.slots == EmptySlots(cfg);
    PayloadOfEmpty(ram.reg.slots, |ram.reg.slots|);
  }

  /**
   * A relearn cut after its waveform: the device comes back read-only under an unchanged token with one
   * command fewer, so the replica that was exact before the cut is skipped and keeps the lost command.
   */
  lemma {:induction false} TornRelearnKeepsTheToken(cfg: Config, ram: Ram, records: Records, c: Command,
                                                    replica: Snapshot, minted: BridgeId)
    requires Sound(cfg, ram.reg) && InStep(cfg, records, ram.reg)
    requires PutPlan(cfg, ram, c).Write? && First(ram.reg.slots, ByName(c.name)) >= 0
    requires !Collides(ram.reg.slots[First(ram.reg.slots, ByName(c.name))].timings, c.timings)
    requires SameToken(ram, replica) && replica.commands == Listed(ram.reg.slots)
    ensures var ram' := Reboot(cfg, CutRecords(cfg, ram, records, Put(c), 1), minted, 0).ram;
            && ram'.readOnly && SameToken(ram', replica)
            && |Listed(ram'.reg.slots)| + 1 == |replica.commands|
  {
    hide HexOf, IndexBytes, HeaderBytes, TimingBytes, Begin, Sound, CutRecords, PutPlan, Collides;
    var s: nat := First(ram.reg.slots, ByName(c.name));
    RelearnConfined(cfg, ram, records, c, 1, minted, 0);
    OccupancyLess(ram.reg.slots, s, |ram.reg.slots|);
  }

  lemma {:induction false} OccupancyLess(slots: seq<Command>, s: nat, n: nat)
    requires s < |slots| && slots[s].Occupied() && n <= |slots|
    ensures Occupancy(slots[s := FREE], n) + (if s < n then 1 else 0) == Occupancy(slots, n)
  {
    if n != 0 {
      OccupancyLess(slots, s, n - 1);
    }
  }
}

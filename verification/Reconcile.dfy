/**
 * Keeping Home Assistant's organisation in step with what the bridge lists, without ever losing the
 * organisation of a command the bridge still holds.
 */
module Reconcile {
  import opened Bytes
  import opened RegistryModel
  import opened Flash
  import opened Runs
  import opened Bridge
  import opened Targets

  const RESERVATION_SECONDS := 60.0

  // ---- Unique ids ---------------------------------------------------------------------------

  function CommandUniqueId(bridgeId: string, id: int): string {
    bridgeId + "_" + ShowInt(id)
  }

  function CommandIdFromUniqueId(bridgeId: string, uniqueId: string): Option<int> {
    var prefix := bridgeId + "_";
    if prefix <= uniqueId then ReadInt(uniqueId[|prefix|..]) else None
  }

  /** A command's entity is always recognised as that command's. */
  lemma {:induction false} UniqueIdRoundTrip(bridgeId: string, id: int)
    ensures CommandIdFromUniqueId(bridgeId, CommandUniqueId(bridgeId, id)) == Some(id)
  {
    ReadShown(id);
    assert CommandUniqueId(bridgeId, id)[|bridgeId + "_"|..] == ShowInt(id);
  }

  /** Every other unique id names no command: another bridge's, one without the underscore, one without a number. */
  lemma {:induction false} OthersNameNoCommand(bridgeId: string, uniqueId: string)
    ensures CommandIdFromUniqueId(bridgeId, uniqueId).Some? <==>
            && |uniqueId| > |bridgeId| && uniqueId[..|bridgeId|] == bridgeId && uniqueId[|bridgeId|] == '_'
            && ReadInt(uniqueId[|bridgeId| + 1..]).Some?
  {
    var prefix, n := bridgeId + "_", |bridgeId|;
    if prefix <= uniqueId {
      assert uniqueId[n] == prefix[n] && uniqueId[..n] == prefix[..n];
    }
  }

  // ---- Listings -----------------------------------------------------------------------------

  function ListedIn(status: Status): set<int> {
    set id | id in status.listing :: id as int
  }

  /** The listing, when there is one that says anything about this bridge's commands. */
  function Trusted(status: Option<Status>, mismatch: bool): Option<set<int>> {
    match status
    case None => None
    case Some(s) => if mismatch || s.restoreIncomplete then None else Some(ListedIn(s))
  }

  function CounterOf(status: Option<Status>): Option<int> {
    match status
    case None => None
    case Some(s) => Some(s.nextId)
  }

  /** No status, foreign hardware or an unfinished restore: nothing that says what this bridge holds. */
  predicate Blind(status: Option<Status>, mismatch: bool) {
    status == None || mismatch || status.value.restoreIncomplete
  }

  /** The read lists this command. */
  predicate Lists(status: Status, id: int) {
    exists k :: 0 <= k < |status.listing| && status.listing[k] as int == id
  }

  /**
   * What becomes of the organisation: blind, nothing; else the commands the read does not list go, those
   * numbered below its counter where a counter is given, and every other keeps target and icon.
   */
  ghost predicate Organised(was: Entry, now: Entry, status: Option<Status>, mismatch: bool, counted: bool) {
    forall id: int ::
      if !Blind(status, mismatch) && !Lists(status.value, id) && (!counted || id < status.value.nextId) then
        id !in CommandMetaOf(now)
      else AssignedTarget(now, id) == AssignedTarget(was, id) && IconOf(now, id) == IconOf(was, id)
  }

  lemma {:induction false} PruningOrganises(entry: Entry, status: Option<Status>, mismatch: bool, counted: bool)
    ensures var listed, below := Trusted(status, mismatch), if counted then CounterOf(status) else None;
            Organised(entry, Targets.Pruned(entry, listed, below), status, mismatch, counted)
  {
    hide CommandMetaOf, AssignedTarget, IconOf, TargetsOf, Targets.Pruned;
    var listed, below := Trusted(status, mismatch), if counted then CounterOf(status) else None;
    PruneKeeps(entry, listed, below);
    forall id: int | !Gone(id, listed, below)
      ensures AssignedTarget(Targets.Pruned(entry, listed, below), id) == AssignedTarget(entry, id)
      ensures IconOf(Targets.Pruned(entry, listed, below), id) == IconOf(entry, id)
    {
      PruneKeepsAssignments(entry, listed, below, id);
    }
    if status.Some? {
      forall id: int
        ensures id in ListedIn(status.value) <==> Lists(status.value, id)
      {
        ListedIs(status.value, id);
      }
    }
  }

  lemma {:induction false} ListedIs(status: Status, id: int)
    ensures id in ListedIn(status) <==> Lists(status, id)
  {
    if Lists(status, id) {
      var k :| 0 <= k < |status.listing| && status.listing[k] as int == id;
      assert status.listing[k] in status.listing;
    }
  }

  // ---- Entity registry records --------------------------------------------------------------

  predicate Purgeable(bridgeId: string, record: string, listed: set<int>) {
    var id := CommandIdFromUniqueId(bridgeId, record);
    id.Some? && id.value !in listed
  }

  function PurgedUpTo(bridgeId: string, records: seq<string>, listed: set<int>, n: nat): seq<string>
    requires n <= |records|
  {
    if n == 0 then []
    else
      PurgedUpTo(bridgeId, records, listed, n - 1) +
      (if Purgeable(bridgeId, records[n - 1], listed) then [] else [records[n - 1]])
  }

  function RecordsAfterPurge(bridgeId: Option<string>, records: seq<string>, listed: Option<set<int>>): seq<string> {
    if bridgeId.Some? && listed.Some? then PurgedUpTo(bridgeId.value, records, listed.value, |records|) else records
  }

  /** Exactly the records of unlisted commands go; a record that names no command of this bridge stays. */
  lemma {:induction false} PurgeRemovesExactly(bridgeId: string, records: seq<string>, listed: set<int>, n: nat)
    requires n <= |records|
    ensures forall r :: r in PurgedUpTo(bridgeId, records, listed, n) <==>
              r in records[..n] && (CommandIdFromUniqueId(bridgeId, r) == None ||
                                    CommandIdFromUniqueId(bridgeId, r).value in listed)
  {
    hide CommandIdFromUniqueId;
    if n != 0 {
      PurgeRemovesExactly(bridgeId, records, listed, n - 1);
      assert records[..n] == records[..n - 1] + [records[n - 1]];
    }
  }

  // ---- The reconciler -----------------------------------------------------------------------

  function SubentryIds(entry: Entry): set<string> {
    set t | t in TargetsOf(entry).Values :: t.subentryId
  }

  predicate LiveClaim(reserved: map<Name, real>, name: Name, now: real) {
    name in reserved && now < reserved[name]
  }

  function ShownUpTo(status: Status, reserved: map<Name, real>, now: real, n: nat): set<int>
    requires n <= |status.listing| == |status.names|
  {
    set i | 0 <= i < n && !LiveClaim(reserved, status.names[i], now) :: status.listing[i] as int
  }

  /** The ids the platforms should have entities for. */
  function Visible(status: Option<Status>, mismatch: bool, reserved: map<Name, real>, now: real): set<int>
    requires status.Some? ==> |status.value.listing| == |status.value.names|
  {
    if Trusted(status, mismatch) == None then {}
    else ShownUpTo(status.value, reserved, now, |status.value.listing|)
  }

  function KeptUpTo(status: Status, reserved: map<Name, real>, now: real, n: nat): map<Name, real>
    requires n <= |status.names|
  {
    map name | name in reserved && (LiveClaim(reserved, name, now) || name !in status.names[..n]) :: reserved[name]
  }

  /** The claims left after a look: a lapsed one goes as soon as its name is seen. */
  function StillReserved(status: Option<Status>, mismatch: bool, reserved: map<Name, real>, now: real)
    : map<Name, real>
  {
    if Trusted(status, mismatch) == None then reserved
    else KeptUpTo(status.value, reserved, now, |status.value.names|)
  }

  class CommandReconciler {
    const uniqueId: Option<string>
    var entry: Entry
    var records: seq<string>
    var reserved: map<Name, real>
    var active: bool
    var identityMismatch: bool
    var knownTargets: set<string>
    var notifications: nat

    constructor (uniqueId: Option<string>, entry: Entry, records: seq<string>)
      ensures this.uniqueId == uniqueId && this.entry == entry && this.records == records
      ensures reserved == map[] && !active && !identityMismatch && knownTargets == {} && notifications == 0
    {
      this.uniqueId, this.entry, this.records := uniqueId, entry, records;
      reserved, active, identityMismatch, knownTargets, notifications := map[], false, false, {}, 0;
    }

    method Reserve(name: Name, now: real)
      modifies this`reserved
      ensures reserved == old(reserved)[name := now + RESERVATION_SECONDS]
    {
      reserved := reserved[name := now + RESERVATION_SECONDS];
    }

    method Release(name: Name)
      modifies this`reserved
      ensures reserved == old(reserved) - {name}
    {
      reserved := reserved - {name};
    }

    /** A lapsed claim is forgotten as soon as it is looked at. */
    method IsReserved(name: Name, now: real) returns (held: bool)
      modifies this`reserved
      ensures held <==> name in old(reserved) && now < old(reserved)[name]
      ensures reserved == if name in old(reserved) && !held then old(reserved) - {name} else old(reserved)
    {
      if name !in reserved {
        return false;
      }
      if now >= reserved[name] {
        reserved := reserved - {name};
        return false;
      }
      return true;
    }

    /** Shows what is listed and not held back by a live claim; lapsed claims it met are forgotten. */
    method VisibleCommands(status: Option<Status>, now: real) returns (visible: set<int>)
      requires status.Some? ==> |status.value.listing| == |status.value.names|
      modifies this`reserved
      ensures visible == Visible(status, identityMismatch, old(reserved), now)
      ensures reserved == StillReserved(status, identityMismatch, old(reserved), now)
      ensures Blind(status, identityMismatch) ==> visible == {} && reserved == old(reserved)
      ensures !Blind(status, identityMismatch) ==>
                && (forall id :: id in visible <==>
                      exists k :: 0 <= k < |status.value.listing| && status.value.listing[k] as int == id &&
                        !(status.value.names[k] in old(reserved) && now < old(reserved)[status.value.names[k]]))
                && (forall name :: name in reserved <==>
                      name in old(reserved) && (now < old(reserved)[name] || name !in status.value.names))
                && (forall name :: name in reserved ==> reserved[name] == old(reserved)[name])
    {
      visible := {};
      if status == None || identityMismatch || status.value.restoreIncomplete {
        return;
      }
      var s := status.value;
      for i := 0 to |s.listing|
        invariant visible == ShownUpTo(s, old(reserved), now, i)
        invariant reserved == KeptUpTo(s, old(reserved), now, i)
      {
        var held := IsReserved(s.names[i], now);
        if !held {
          visible := visible + {s.listing[i] as int};
        }
      }
    }

    method SnapshotTargets()
      modifies this`knownTargets
      ensures knownTargets == SubentryIds(entry)
      ensures forall s :: s in knownTargets <==> exists t :: t in TargetsOf(entry).Values && t.subentryId == s
    {
      var found := ReadTargets(entry);
      knownTargets := set t | t in found.Values :: t.subentryId;
    }

    method Activate()
      modifies this`knownTargets, this`active
      ensures active && knownTargets == SubentryIds(entry)
    {
      SnapshotTargets();
      active := true;
    }

    method PurgeRemoved(listed: Option<set<int>>)
      modifies this`records
      ensures records == RecordsAfterPurge(uniqueId, old(records), listed)
      ensures listed == None || uniqueId == None ==> records == old(records)
      ensures listed.Some? && uniqueId.Some? ==>
                forall r :: r in records <==>
                  r in old(records) && (CommandIdFromUniqueId(uniqueId.value, r) == None ||
                                        CommandIdFromUniqueId(uniqueId.value, r).value in listed.value)
    {
      if listed == None || uniqueId == None {
        return;
      }
      var kept: seq<string> := [];
      for i := 0 to |records|
        invariant records == old(records)
        invariant kept == PurgedUpTo(uniqueId.value, records, listed.value, i)
      {
        var id := CommandIdFromUniqueId(uniqueId.value, records[i]);
        if id == None || id.value in listed.value {
          kept := kept + [records[i]];
        }
      }
      PurgeRemovesExactly(uniqueId.value, records, listed.value, |records|);
      assert records[..|records|] == records;
      records := kept;
    }

    method Spend(names: seq<Name>)
      modifies this`reserved
      ensures reserved == map name | name in old(reserved) && name !in names :: old(reserved)[name]
    {
      for i := 0 to |names|
        invariant reserved == map name | name in old(reserved) && name !in names[..i] :: old(reserved)[name]
      {
        reserved := reserved - {names[i]};
        assert names[..i + 1] == names[..i] + [names[i]];
      }
      assert names[..|names|] == names;
    }

    /** Follow a status that has just arrived. */
    method Reconcile(status: Status)
      modifies this
      ensures active == old(active)
      ensures identityMismatch == (uniqueId.Some? && status.bridgeId != uniqueId.value)
      ensures identityMismatch || status.restoreIncomplete ==>
                entry == old(entry) && records == old(records) && reserved == old(reserved) &&
                knownTargets == old(knownTargets) && notifications == old(notifications)
      ensures !identityMismatch && !status.restoreIncomplete ==>
                && entry == Pruned(old(entry), Some(ListedIn(status)), None)
                && records == RecordsAfterPurge(uniqueId, old(records), Some(ListedIn(status)))
                && reserved == (map name | name in old(reserved) && name !in status.names :: old(reserved)[name])
                && Organised(old(entry), entry, Some(status), false, false)
                && knownTargets == SubentryIds(entry) && notifications == old(notifications) + 1
    {
      hide OptionsPrunedTo, PurgedUpTo, Organised;
      PruningOrganises(entry, Some(status), false, false);
      if uniqueId.Some? && status.bridgeId != uniqueId.value {
        identityMismatch := true;
        return;
      }
      identityMismatch := false;
      if status.restoreIncomplete {
        return;
      }
      Spend(status.names);
      var listed := Trusted(Some(status), identityMismatch);
      PurgeRemoved(listed);
      var pruned := PruneOptions(entry, listed, None);
      if pruned.Some? {
        entry := entry.(options := pruned.value);
      }
      SnapshotTargets();
      notifications := notifications + 1;
    }

    /**
     * React to a change of the entry, against the status last read; `loaded` is the entry's state. A prune
     * writes the entry, and that schedules another update.
     */
    method HandleEntryUpdate(status: Option<Status>, loaded: bool) returns (scheduled: bool)
      modifies this
      ensures scheduled <==> active && loaded &&
                             OptionsPrunedTo(old(entry), Trusted(status, identityMismatch), CounterOf(status)).Some?
      ensures active == old(active) && identityMismatch == old(identityMismatch)
      ensures records == old(records) && reserved == old(reserved) && knownTargets == SubentryIds(old(entry))
      ensures !(active && loaded) ==> entry == old(entry) && notifications == old(notifications)
      ensures active && loaded ==> Organised(old(entry), entry, status, identityMismatch, true)
      ensures active && loaded ==>
                var listed := Trusted(status, identityMismatch);
                && entry == Pruned(old(entry), listed, CounterOf(status))
                && notifications == old(notifications) + (if scheduled then 0 else 1)
    {
      hide OptionsPrunedTo, Organised;
      PruningOrganises(entry, status, identityMismatch, true);
      SnapshotTargets();
      if !(active && loaded) {
        return false;
      }
      var pruned := PruneOptions(entry, Trusted(status, identityMismatch), CounterOf(status));
      if pruned.Some? {
        entry := entry.(options := pruned.value);
        return true;
      }
      notifications := notifications + 1;
      return false;
    }
  }

  /** An update, with the one it schedules when it prunes: the platforms are told exactly once, and then it stops. */
  method UpdateAndReentry(r: CommandReconciler, status: Option<Status>)
    requires r.active
    modifies r
    ensures r.notifications == old(r.notifications) + 1
    ensures r.entry == Pruned(old(r.entry), Trusted(status, r.identityMismatch), CounterOf(status))
    ensures OptionsPrunedTo(r.entry, Trusted(status, r.identityMismatch), CounterOf(status)) == None
  {
    hide OptionsPrunedTo;
    PruneIsFixedPoint(r.entry, Trusted(status, r.identityMismatch), CounterOf(status));
    var scheduled := r.HandleEntryUpdate(status, true);
    if scheduled {
      var again := r.HandleEntryUpdate(status, true);
      assert !again;
    }
  }

  /** A claim holds its name for sixty seconds from when it was made, and no longer. */
  method ReserveAndLook(r: CommandReconciler, name: Name, madeAt: real, now: real) returns (held: bool)
    modifies r
    ensures held <==> now < madeAt + 60.0
    ensures r.reserved == if held then old(r.reserved)[name := madeAt + 60.0] else old(r.reserved) - {name}
  {
    r.Reserve(name, madeAt);
    held := r.IsReserved(name, now);
  }

  // ---- Safety across the two sides ----------------------------------------------------------

  lemma {:induction false} ListedInIsHeld(cfg: Config, ram: Ram, id: u32)
    ensures id as int in ListedIn(StatusOf(cfg, ram)) <==> id in Held(ram.reg)
  {
    ListingIsHeld(cfg, ram);
  }

  /**
   * Prune against a listing as old as you like, as long as the device has only drawn ids since it was
   * read: whatever command the device holds now keeps its icon and its target, though it may have been
   * learned, renamed or survived any number of power cuts since.
   */
  lemma {:induction false} StaleListingIsSafe(cfg: Config, m: Machine, disk: Registry, before: seq<Event>,
                                              after: seq<Event>, entry: Entry, mismatch: bool, id: u32)
    requires Tracks(cfg, m, disk) && NothingBehind(cfg, m, disk) && Drawing(before) && Drawing(after)
    requires id in Held(After(cfg, m, before + after).ram.reg)
    ensures var status := Some(StatusOf(cfg, After(cfg, m, before).ram));
            var listed, below := Trusted(status, mismatch), CounterOf(status);
            var was, now := CommandMetaOf(entry), CommandMetaOf(Targets.Pruned(entry, listed, below));
            && !Gone(id, listed, below)
            && AssignedTarget(Targets.Pruned(entry, listed, below), id) == AssignedTarget(entry, id)
            && (id in was && was[id].icon.Some? ==> id in now && now[id].icon == was[id].icon)
  {
    hide Tracks, NothingBehind, After, Held, CommandMetaOf, AssignedTarget, HexOf;
    var read := After(cfg, m, before).ram;
    ListingStaysEvidence(cfg, m, disk, before, after);
    ListedInIsHeld(cfg, read, id);
    var status := Some(StatusOf(cfg, read));
    PruneKeepsAssignments(entry, Trusted(status, mismatch), CounterOf(status), id);
  }

  /**
   * Without the counter a stale listing is not safe: the organisation of a command learned just after
   * the read is dropped, though the device holds it.
   */
  lemma {:induction false} CounterIsNeeded(cfg: Config, m: Machine, e: Event, entry: Entry)
    requires Sound(cfg, m.ram.reg) && Learned(cfg, m, e)
    requires m.ram.reg.nextId as int in CommandMetaOf(entry)
    ensures var id := m.ram.reg.nextId;
            var listed := Trusted(Some(StatusOf(cfg, m.ram)), false);
            && id in Held(Step(cfg, m, e).ram.reg)
            && id as int !in CommandMetaOf(Targets.Pruned(entry, listed, None))
            && !Gone(id, listed, Some(id))
  {
    hide CommandMetaOf, Held, Step, HexOf;
    LearnedId(cfg, m, e);
    assert m.ram.reg.restoreState == 0 by { LearnedWasOpen(cfg, m, e); }
    ListedInIsHeld(cfg, m.ram, m.ram.reg.nextId);
    PruneKeeps(entry, Trusted(Some(StatusOf(cfg, m.ram)), false), None);
  }

  lemma {:induction false} LearnedWasOpen(cfg: Config, m: Machine, e: Event)
    requires Learned(cfg, m, e)
    ensures m.ram.reg.restoreState == 0
  {
  }
}

/**
 * The organisation Home Assistant keeps around the commands: which target each belongs to and its
 * icon, stored in the entry's options as JSON keyed by the decimal command id.
 */
module Targets {
  import opened Bytes

  // ---- JSON, as far as the options use it ---------------------------------------------------

  datatype Json = Text(text: string) | Object(items: seq<(string, Json)>) | OtherJson

  const OPT_COMMANDS := "commands"
  const CONF_TARGET_ID := "target_id"
  const CONF_ICON := "icon"
  const SUBENTRY_TYPE_TARGET := "target"

  function Lookup(items: seq<(string, Json)>, key: string): Option<Json> {
    if items == [] then None
    else if items[0].0 == key then Some(items[0].1)
    else Lookup(items[1..], key)
  }

  /** A field that holds a non-empty string; anything else reads as absent. */
  function TextField(items: seq<(string, Json)>, key: string): (field: Option<string>)
    ensures field.Some? ==> field.value != ""
  {
    match Lookup(items, key)
    case Some(Text(text)) => if text != "" then Some(text) else None
    case _ => None
  }

  // ---- Decimal keys -------------------------------------------------------------------------

  function DigitChar(d: nat): char
    requires d < 10
  {
    ('0' as int + d) as char
  }

  function ShowNat(n: nat): (s: string)
    ensures s != "" && '0' <= s[0] <= '9'
  {
    if n < 10 then [DigitChar(n)] else ShowNat(n / 10) + [DigitChar(n % 10)]
  }

  function ShowInt(n: int): string {
    if n < 0 then "-" + ShowNat(-n) else ShowNat(n)
  }

  function ReadNat(s: string): Option<nat> {
    if s == "" then None
    else
      var last := s[|s| - 1];
      if !('0' <= last <= '9') then None
      else
        var digit := last as int - '0' as int;
        if |s| == 1 then Some(digit)
        else
          match ReadNat(s[..|s| - 1])
          case None => None
          case Some(n) => Some(10 * n + digit)
  }

  /** An optional sign and decimal digits; a key that is anything else is skipped. */
  function ReadInt(s: string): Option<int> {
    if s != "" && (s[0] == '-' || s[0] == '+') then
      match ReadNat(s[1..])
      case None => None
      case Some(n) =>
        var magnitude: int := n;
        Some(if s[0] == '-' then -magnitude else magnitude)
    else
      match ReadNat(s)
      case None => None
      case Some(n) => Some(n)
  }

  lemma {:induction false} ReadShownNat(n: nat)
    ensures ReadNat(ShowNat(n)) == Some(n)
  {
    if n >= 10 {
      ReadShownNat(n / 10);
      assert ShowNat(n)[..|ShowNat(n)| - 1] == ShowNat(n / 10);
    }
  }

  /** Only digits, and no zero in front of others. */
  lemma {:induction false} ShownPlainly(n: nat)
    ensures forall i :: 0 <= i < |ShowNat(n)| ==> '0' <= ShowNat(n)[i] <= '9'
    ensures ShowNat(n)[0] == '0' ==> n == 0
  {
    if n >= 10 {
      ShownPlainly(n / 10);
    }
  }

  /** Every id survives being written as a key and read back; a plus sign reads as none. */
  lemma {:induction false} ReadShown(n: int)
    ensures ReadInt(ShowInt(n)) == Some(n)
    ensures n >= 0 ==> ReadInt("+" + ShowInt(n)) == Some(n)
  {
    if n >= 0 {
      ReadShownNat(n);
      assert ("+" + ShowInt(n))[1..] == ShowNat(n);
    }
    if n < 0 {
      ReadShownNat(-n);
      assert ShowInt(n)[1..] == ShowNat(-n);
    } else {
      ReadShownNat(n);
    }
  }

  // ---- Targets ------------------------------------------------------------------------------

  datatype Subentry = Subentry(subentryId: string, kind: string, data: seq<(string, Json)>)

  datatype RfTarget = RfTarget(targetId: string, subentryId: string)

  datatype Entry = Entry(options: map<string, Json>, subentries: seq<Subentry>)

  function TargetOf(s: Subentry): Option<RfTarget> {
    if s.kind != SUBENTRY_TYPE_TARGET then None
    else
      match TextField(s.data, CONF_TARGET_ID)
      case None => None
      case Some(id) => Some(RfTarget(id, s.subentryId))
  }

  function TargetsUpTo(subentries: seq<Subentry>, n: nat): map<string, RfTarget>
    requires n <= |subentries|
  {
    if n == 0 then map[]
    else
      match TargetOf(subentries[n - 1])
      case None => TargetsUpTo(subentries, n - 1)
      case Some(t) => TargetsUpTo(subentries, n - 1)[t.targetId := t]
  }

  function TargetsOf(entry: Entry): map<string, RfTarget> {
    TargetsUpTo(entry.subentries, |entry.subentries|)
  }

  /** A subentry of the target kind, whose data gives this id. */
  predicate Defines(s: Subentry, targetId: string) {
    s.kind == "target" && targetId != "" && Lookup(s.data, "target_id") == Some(Text(targetId))
  }

  /** A target is known by the last subentry that defines it, and nothing else is a target. */
  lemma {:induction false} TargetsAre(subentries: seq<Subentry>, n: nat, targetId: string)
    requires n <= |subentries|
    ensures targetId in TargetsUpTo(subentries, n) <==> exists k :: 0 <= k < n && Defines(subentries[k], targetId)
    ensures targetId in TargetsUpTo(subentries, n) ==>
              exists k :: 0 <= k < n && Defines(subentries[k], targetId) &&
                TargetsUpTo(subentries, n)[targetId] == RfTarget(targetId, subentries[k].subentryId) &&
                forall j :: k < j < n ==> !Defines(subentries[j], targetId)
  {
    hide Lookup;
    if n != 0 {
      TargetsAre(subentries, n - 1, targetId);
      if Defines(subentries[n - 1], targetId) {
        assert TargetOf(subentries[n - 1]) == Some(RfTarget(targetId, subentries[n - 1].subentryId));
      } else if targetId in TargetsUpTo(subentries, n) {
        var k :| 0 <= k < n - 1 && Defines(subentries[k], targetId) &&
                 TargetsUpTo(subentries, n - 1)[targetId] == RfTarget(targetId, subentries[k].subentryId) &&
                 forall j :: k < j < n - 1 ==> !Defines(subentries[j], targetId);
      }
    }
  }

  method ReadTargets(entry: Entry) returns (found: map<string, RfTarget>)
    ensures found == TargetsOf(entry)
  {
    found := map[];
    for i := 0 to |entry.subentries|
      invariant found == TargetsUpTo(entry.subentries, i)
    {
      var target := TargetOf(entry.subentries[i]);
      if target.Some? {
        found := found[target.value.targetId := target.value];
      }
    }
  }

  // ---- Command metadata ---------------------------------------------------------------------

  datatype CommandMeta = CommandMeta(targetId: Option<string>, icon: Option<string>)
  {
    predicate IsEmpty() { targetId == None && icon == None }

    /** No field holds an empty string, which could not be told from an absent one. */
    predicate Proper() { targetId != Some("") && icon != Some("") }
  }

  const NO_META := CommandMeta(None, None)

  function MetaFromStored(payload: Json): CommandMeta {
    match payload
    case Object(items) => CommandMeta(TextField(items, CONF_TARGET_ID), TextField(items, CONF_ICON))
    case _ => NO_META
  }

  function MetaAsStored(meta: CommandMeta): Json {
    match meta
    case CommandMeta(None, None) => Object([])
    case CommandMeta(Some(target), None) => Object([(CONF_TARGET_ID, Text(target))])
    case CommandMeta(None, Some(icon)) => Object([(CONF_ICON, Text(icon))])
    case CommandMeta(Some(target), Some(icon)) => Object([(CONF_TARGET_ID, Text(target)), (CONF_ICON, Text(icon))])
  }

  lemma {:induction false} LookupOne(key: string, value: Json, other: string)
    requires key != other
    ensures Lookup([(key, value)], key) == Some(value) && Lookup([(key, value)], other) == None
  {
    assert [(key, value)][1..] == [];
  }

  lemma {:induction false} MetaRoundTrip(meta: CommandMeta)
    requires meta.Proper()
    ensures MetaFromStored(MetaAsStored(meta)) == meta
  {
    assert CONF_TARGET_ID[0] != CONF_ICON[0];
    match meta
    case CommandMeta(None, None) =>
    case CommandMeta(Some(target), None) => LookupOne(CONF_TARGET_ID, Text(target), CONF_ICON);
    case CommandMeta(None, Some(icon)) => LookupOne(CONF_ICON, Text(icon), CONF_TARGET_ID);
    case CommandMeta(Some(target), Some(icon)) =>
      LookupOne(CONF_ICON, Text(icon), CONF_TARGET_ID);
      var items := [(CONF_TARGET_ID, Text(target)), (CONF_ICON, Text(icon))];
      assert items[1..] == [(CONF_ICON, Text(icon))];
  }

  function StoredItems(entry: Entry): seq<(string, Json)> {
    if OPT_COMMANDS in entry.options && entry.options[OPT_COMMANDS].Object? then entry.options[OPT_COMMANDS].items
    else []
  }

  /** The metadata of the first `n` stored items, later items winning; unreadable ones are skipped. */
  function MetaUpTo(items: seq<(string, Json)>, n: nat): map<int, CommandMeta>
    requires n <= |items|
  {
    if n == 0 then map[]
    else
      var before := MetaUpTo(items, n - 1);
      var meta := MetaFromStored(items[n - 1].1);
      match ReadInt(items[n - 1].0)
      case None => before
      case Some(id) => if meta.IsEmpty() then before else before[id := meta]
  }

  /** The item gives this id metadata worth keeping. */
  predicate Gives(item: (string, Json), id: int) {
    ReadInt(item.0) == Some(id) && !MetaFromStored(item.1).IsEmpty()
  }

  /** An id's metadata is what the last item says that gives it any. */
  lemma {:induction false} MetaIs(items: seq<(string, Json)>, n: nat, id: int)
    requires n <= |items|
    ensures id in MetaUpTo(items, n) <==> exists k :: 0 <= k < n && Gives(items[k], id)
    ensures id in MetaUpTo(items, n) ==>
              exists k :: 0 <= k < n && Gives(items[k], id) && MetaUpTo(items, n)[id] == MetaFromStored(items[k].1) &&
                forall j :: k < j < n ==> !Gives(items[j], id)
  {
    hide ReadInt, MetaFromStored;
    if n != 0 {
      MetaIs(items, n - 1, id);
      if !Gives(items[n - 1], id) && id in MetaUpTo(items, n) {
        var k :| 0 <= k < n - 1 && Gives(items[k], id) && MetaUpTo(items, n - 1)[id] == MetaFromStored(items[k].1) &&
                 forall j :: k < j < n - 1 ==> !Gives(items[j], id);
      }
    }
  }

  /** A field is there when the object has it as a non-empty text, whatever else the object holds. */
  lemma {:induction false} FieldIs(items: seq<(string, Json)>, key: string, text: string)
    requires forall i, j :: 0 <= i < j < |items| ==> items[i].0 != items[j].0
    ensures TextField(items, key) == Some(text) <==> text != "" && (key, Text(text)) in items
  {
    LookupIs(items, key, Text(text));
  }

  lemma {:induction false} LookupIs(items: seq<(string, Json)>, key: string, value: Json)
    requires forall i, j :: 0 <= i < j < |items| ==> items[i].0 != items[j].0
    ensures Lookup(items, key) == Some(value) <==> (key, value) in items
  {
    if items != [] {
      LookupIs(items[1..], key, value);
      assert items == [items[0]] + items[1..];
    }
  }

  function CommandMetaOf(entry: Entry): map<int, CommandMeta> {
    MetaUpTo(StoredItems(entry), |StoredItems(entry)|)
  }

  method ReadCommandMeta(entry: Entry) returns (found: map<int, CommandMeta>)
    ensures found == CommandMetaOf(entry)
  {
    var stored := StoredItems(entry);
    found := map[];
    for i := 0 to |stored|
      invariant found == MetaUpTo(stored, i)
    {
      var id := ReadInt(stored[i].0);
      if id.Some? {
        var meta := MetaFromStored(stored[i].1);
        if !meta.IsEmpty() {
          found := found[id.value := meta];
        }
      }
    }
  }

  /** What can be stored under an id: something, with no empty strings. */
  ghost predicate Storable(m: map<int, CommandMeta>) {
    forall id :: id in m ==> !m[id].IsEmpty() && m[id].Proper()
  }

  lemma {:induction false} MetaReadIsStorable(items: seq<(string, Json)>, n: nat)
    requires n <= |items|
    ensures Storable(MetaUpTo(items, n))
  {
    if n != 0 {
      MetaReadIsStorable(items, n - 1);
    }
  }

  /** The target a command belongs to; an assignment to a target that is gone reads as none. */
  function AssignedTarget(entry: Entry, id: int): Option<RfTarget> {
    var metas := CommandMetaOf(entry);
    if id in metas && metas[id].targetId.Some? && metas[id].targetId.value in TargetsOf(entry) then
      Some(TargetsOf(entry)[metas[id].targetId.value])
    else None
  }

  /** The last item that says anything about an id, and the last subentry that defines a target. */
  predicate LastGives(items: seq<(string, Json)>, k: nat, id: int) {
    k < |items| && Gives(items[k], id) && forall j :: k < j < |items| ==> !Gives(items[j], id)
  }

  predicate LastDefines(subentries: seq<Subentry>, k: nat, targetId: string) {
    k < |subentries| && Defines(subentries[k], targetId) &&
    forall j :: k < j < |subentries| ==> !Defines(subentries[j], targetId)
  }

  /** A command's target is the one the last word on it names, as its last subentry defines it, if any does. */
  lemma {:induction false} AssignedIs(entry: Entry, id: int, k: nat, d: nat)
    requires LastGives(StoredItems(entry), k, id)
    ensures var named := MetaFromStored(StoredItems(entry)[k].1).targetId;
            && (named == None ==> AssignedTarget(entry, id) == None)
            && (named.Some? && named.value !in TargetsOf(entry) ==> AssignedTarget(entry, id) == None)
            && (named.Some? && LastDefines(entry.subentries, d, named.value) ==>
                  AssignedTarget(entry, id) == Some(RfTarget(named.value, entry.subentries[d].subentryId)))
  {
    hide MetaFromStored, Gives, Defines;
    var items := StoredItems(entry);
    MetaIs(items, |items|, id);
    var named := MetaFromStored(items[k].1).targetId;
    if named.Some? {
      TargetsAre(entry.subentries, |entry.subentries|, named.value);
    }
  }

  lemma {:induction false} UnassignedIs(entry: Entry, id: int)
    requires forall k :: 0 <= k < |StoredItems(entry)| ==> !Gives(StoredItems(entry)[k], id)
    ensures AssignedTarget(entry, id) == None && IconOf(entry, id) == None
  {
    hide Gives;
    MetaIs(StoredItems(entry), |StoredItems(entry)|, id);
  }

  function IconOf(entry: Entry, id: int): Option<string> {
    var metas := CommandMetaOf(entry);
    if id in metas then metas[id].icon else None
  }

  // ---- Writing the options ------------------------------------------------------------------

  ghost predicate Least(n: int, s: set<int>) {
    n in s && forall m :: m in s ==> n <= m
  }

  lemma {:induction false} SomeMember(s: set<int>)
    ensures s == {} <==> forall k :: k !in s
  {
    if forall k :: k !in s {
      assert s == {};
    }
  }

  lemma {:induction false} LeastExists(s: set<int>) returns (n: int)
    requires s != {}
    ensures Least(n, s)
    decreases |s|
  {
    SomeMember(s);
    var m :| m in s;
    n := m;
    if s - {m} != {} {
      var rest := LeastExists(s - {m});
      n := if rest < m then rest else m;
    }
    forall k | k in s
      ensures n <= k
    {
      if k != m {
        assert k in s - {m};
      }
    }
  }

  lemma {:induction false} LeastIsThere(s: set<int>)
    requires s != {}
    ensures exists n :: Least(n, s)
  {
    var n := LeastExists(s);
  }

  ghost function SortedKeys(s: set<int>): (keys: seq<int>)
    ensures forall n :: n in keys <==> n in s
    decreases |s|
  {
    if s == {} then []
    else
      LeastIsThere(s);
      var n :| Least(n, s);
      [n] + SortedKeys(s - {n})
  }

  lemma {:induction false} SortedKeysStep(s: set<int>, n: int)
    requires Least(n, s)
    ensures SortedKeys(s) == [n] + SortedKeys(s - {n})
  {
    LeastIsThere(s);
    var m :| Least(m, s) && SortedKeys(s) == [m] + SortedKeys(s - {m});
    assert m <= n && n <= m;
  }

  /** The ids are rendered in increasing order. */
  lemma {:induction false} SortedKeysAscend(s: set<int>)
    ensures |SortedKeys(s)| == |s|
    ensures forall i, j :: 0 <= i < j < |SortedKeys(s)| ==> SortedKeys(s)[i] < SortedKeys(s)[j]
    decreases |s|
  {
    if s != {} {
      LeastIsThere(s);
      var n :| Least(n, s);
      SortedKeysStep(s, n);
      SortedKeysAscend(s - {n});
      var rest := SortedKeys(s - {n});
      forall j | 0 <= j < |rest|
        ensures n < rest[j]
      {
        assert rest[j] in rest;
      }
    }
  }

  ghost function StoredUpTo(m: map<int, CommandMeta>, keys: seq<int>, n: nat): (items: seq<(string, Json)>)
    requires n <= |keys| && forall id :: id in keys ==> id in m
    ensures |items| == n
  {
    if n == 0 then []
    else StoredUpTo(m, keys, n - 1) + [(ShowInt(keys[n - 1]), MetaAsStored(m[keys[n - 1]]))]
  }

  ghost function Stored(m: map<int, CommandMeta>): Json {
    Object(StoredUpTo(m, SortedKeys(m.Keys), |SortedKeys(m.Keys)|))
  }

  ghost function WithMeta(entry: Entry, m: map<int, CommandMeta>): Entry {
    entry.(options := entry.options[OPT_COMMANDS := Stored(m)])
  }

  lemma {:induction false} MetaPrefix(a: seq<(string, Json)>, b: seq<(string, Json)>, n: nat)
    requires n <= |a| && n <= |b| && forall i :: 0 <= i < n ==> a[i] == b[i]
    ensures MetaUpTo(a, n) == MetaUpTo(b, n)
  {
    if n != 0 {
      MetaPrefix(a, b, n - 1);
    }
  }

  lemma {:induction false} StoredOne(m: map<int, CommandMeta>, keys: seq<int>, n: nat)
    requires 1 <= n <= |keys| && (forall id :: id in keys ==> id in m) && Storable(m)
    ensures MetaUpTo(StoredUpTo(m, keys, n), n) ==
            MetaUpTo(StoredUpTo(m, keys, n - 1), n - 1)[keys[n - 1] := m[keys[n - 1]]]
  {
    hide MetaFromStored, MetaAsStored, ReadInt, ShowInt;
    MetaPrefix(StoredUpTo(m, keys, n), StoredUpTo(m, keys, n - 1), n - 1);
    ReadShown(keys[n - 1]);
    MetaRoundTrip(m[keys[n - 1]]);
  }

  lemma {:induction false} StoredReadsBack(m: map<int, CommandMeta>, keys: seq<int>, n: nat)
    requires n <= |keys| && (forall id :: id in keys ==> id in m) && Storable(m)
    ensures var read := MetaUpTo(StoredUpTo(m, keys, n), n);
            && (forall id :: id in read <==> id in keys[..n])
            && (forall id :: id in read ==> read[id] == m[id])
  {
    if n != 0 {
      hide MetaUpTo, StoredUpTo, Storable;
      StoredReadsBack(m, keys, n - 1);
      StoredOne(m, keys, n);
      assert keys[..n] == keys[..n - 1] + [keys[n - 1]];
    }
  }

  /** What is written to the options is what the next read finds. */
  lemma {:induction false} OptionsRoundTrip(entry: Entry, m: map<int, CommandMeta>)
    requires Storable(m)
    ensures CommandMetaOf(WithMeta(entry, m)) == m
  {
    hide MetaUpTo, StoredUpTo, Storable, SortedKeys;
    var keys := SortedKeys(m.Keys);
    StoredReadsBack(m, keys, |keys|);
    assert keys[..|keys|] == keys;
    assert StoredItems(WithMeta(entry, m)) == StoredUpTo(m, keys, |keys|);
    var read := MetaUpTo(StoredUpTo(m, keys, |keys|), |keys|);
    assert forall id :: id in read <==> id in keys;
    assert forall id :: id in read <==> id in m;
    assert forall id :: id in read ==> read[id] == m[id];
    assert read == m;
    assert CommandMetaOf(WithMeta(entry, m)) == read;
  }

  /** The metadata after `updates`: an empty update drops the id. */
  function Merged(current: map<int, CommandMeta>, updates: map<int, CommandMeta>): map<int, CommandMeta> {
    map id | id in current.Keys + updates.Keys && (id in updates ==> !updates[id].IsEmpty()) ::
      if id in updates then updates[id] else current[id]
  }

  ghost function OptionsWith(entry: Entry, updates: map<int, CommandMeta>): map<string, Json> {
    WithMeta(entry, Merged(CommandMetaOf(entry), updates)).options
  }

  /** `merged` is `current` with every update outside `todo` applied. */
  ghost predicate MergedSoFar(merged: map<int, CommandMeta>, current: map<int, CommandMeta>,
                              updates: map<int, CommandMeta>, todo: set<int>)
  {
    && (forall id :: id in merged <==>
          if id in updates && id !in todo then !updates[id].IsEmpty() else id in current)
    && (forall id :: id in merged ==>
          merged[id] == if id in updates && id !in todo then updates[id] else current[id])
  }

  lemma {:induction false} AllMerged(merged: map<int, CommandMeta>, current: map<int, CommandMeta>,
                                     updates: map<int, CommandMeta>)
    requires MergedSoFar(merged, current, updates, {})
    ensures merged == Merged(current, updates)
  {
    var m := Merged(current, updates);
    assert forall id :: id in merged <==> id in m;
    assert forall id :: id in merged ==> merged[id] == m[id];
  }

  /** The two loops of `options_with`: merge the updates, then render them in id order. */
  method WriteOptions(entry: Entry, updates: map<int, CommandMeta>) returns (options: map<string, Json>)
    ensures options == OptionsWith(entry, updates)
  {
    hide CommandMetaOf, SortedKeys, StoredUpTo, Merged;
    var merged := ReadCommandMeta(entry);
    ghost var current := merged;
    var todo := updates.Keys;
    while todo != {}
      invariant todo <= updates.Keys && MergedSoFar(merged, current, updates, todo)
      decreases |todo|
    {
      SomeMember(todo);
      var id :| id in todo;
      merged := if updates[id].IsEmpty() then merged - {id} else merged[id := updates[id]];
      todo := todo - {id};
    }
    AllMerged(merged, current, updates);
    var items := RenderSorted(merged);
    options := entry.options[OPT_COMMANDS := Object(items)];
  }

  method TakeLeast(s: set<int>) returns (n: int)
    requires s != {}
    ensures Least(n, s)
  {
    var left := s;
    SomeMember(s);
    n :| n in left;
    left := left - {n};
    while left != {}
      invariant n in s && left <= s && forall k :: k in s && k !in left ==> n <= k
      decreases |left|
    {
      SomeMember(left);
      var k :| k in left;
      if k < n {
        n := k;
      }
      left := left - {k};
    }
  }

  /** `sorted` over the ids, least first. */
  method SortKeys(s: set<int>) returns (keys: seq<int>)
    ensures keys == SortedKeys(s)
  {
    hide SortedKeys, Least;
    keys := [];
    var left := s;
    while left != {}
      invariant keys + SortedKeys(left) == SortedKeys(s)
      decreases |left|
    {
      var id := TakeLeast(left);
      SortedKeysStep(left, id);
      assert keys + ([id] + SortedKeys(left - {id})) == keys + [id] + SortedKeys(left - {id});
      keys, left := keys + [id], left - {id};
    }
    assert SortedKeys({}) == [] by { NoKeys(); }
  }

  lemma {:induction false} NoKeys()
    ensures SortedKeys({}) == []
  {
  }

  method RenderSorted(m: map<int, CommandMeta>) returns (items: seq<(string, Json)>)
    ensures items == StoredUpTo(m, SortedKeys(m.Keys), |SortedKeys(m.Keys)|)
  {
    hide SortedKeys, ShowInt, MetaAsStored;
    var keys := SortKeys(m.Keys);
    items := [];
    for i := 0 to |keys|
      invariant items == StoredUpTo(m, keys, i)
    {
      items := items + [(ShowInt(keys[i]), MetaAsStored(m[keys[i]]))];
    }
  }

  // ---- Pruning ------------------------------------------------------------------------------

  /**
   * Whether a listing is evidence that `id` is gone. No listing is evidence of nothing; a listing read
   * with a counter says nothing of ids the device had not yet numbered.
   */
  predicate Gone(id: int, listed: Option<set<int>>, below: Option<int>) {
    listed.Some? && id !in listed.value && (below.None? || id < below.value)
  }

  predicate Dangling(meta: CommandMeta, known: set<string>) {
    meta.targetId.Some? && meta.targetId.value !in known
  }

  function Updates(current: map<int, CommandMeta>, known: set<string>, listed: Option<set<int>>, below: Option<int>)
    : map<int, CommandMeta>
  {
    map id | id in current && (Gone(id, listed, below) || Dangling(current[id], known)) ::
      if Gone(id, listed, below) then NO_META else current[id].(targetId := None)
  }

  ghost function OptionsPrunedTo(entry: Entry, listed: Option<set<int>>, below: Option<int>)
    : Option<map<string, Json>>
  {
    var updates := Updates(CommandMetaOf(entry), TargetsOf(entry).Keys, listed, below);
    if updates == map[] then None else Some(OptionsWith(entry, updates))
  }

  /** `updates` is what the prune has decided for every id outside `todo`. */
  ghost predicate DecidedSoFar(updates: map<int, CommandMeta>, current: map<int, CommandMeta>, known: set<string>,
                               listed: Option<set<int>>, below: Option<int>, todo: set<int>)
  {
    && (forall id :: id in updates <==>
          id in current && id !in todo && (Gone(id, listed, below) || Dangling(current[id], known)))
    && (forall id :: id in updates ==>
          updates[id] == if Gone(id, listed, below) then NO_META else current[id].(targetId := None))
  }

  lemma {:induction false} NoneDecided(current: map<int, CommandMeta>, known: set<string>, listed: Option<set<int>>,
                                       below: Option<int>)
    ensures DecidedSoFar(map[], current, known, listed, below, current.Keys)
  {
  }

  lemma {:induction false} DecideOne(updates: map<int, CommandMeta>, current: map<int, CommandMeta>, known: set<string>,
                                     listed: Option<set<int>>, below: Option<int>, todo: set<int>, id: int)
    requires DecidedSoFar(updates, current, known, listed, below, todo) && id in todo && id in current
    ensures DecidedSoFar(if Gone(id, listed, below) then updates[id := NO_META]
                         else if Dangling(current[id], known) then updates[id := current[id].(targetId := None)]
                         else updates,
                         current, known, listed, below, todo - {id})
  {
    hide Gone, Dangling;
  }

  lemma {:induction false} AllDecided(updates: map<int, CommandMeta>, current: map<int, CommandMeta>,
                                      known: set<string>, listed: Option<set<int>>, below: Option<int>)
    requires DecidedSoFar(updates, current, known, listed, below, {})
    ensures updates == Updates(current, known, listed, below)
  {
    var m := Updates(current, known, listed, below);
    assert forall id :: id in updates <==> id in m;
  }

  method PruneOptions(entry: Entry, listed: Option<set<int>>, below: Option<int>)
    returns (pruned: Option<map<string, Json>>)
    ensures pruned == OptionsPrunedTo(entry, listed, below)
  {
    hide CommandMetaOf, TargetsOf, OptionsWith, Updates, DecidedSoFar;
    NoneDecided(CommandMetaOf(entry), TargetsOf(entry).Keys, listed, below);
    var current := ReadCommandMeta(entry);
    var targets := ReadTargets(entry);
    var updates: map<int, CommandMeta> := map[];
    var todo := current.Keys;
    while todo != {}
      invariant todo <= current.Keys && DecidedSoFar(updates, current, targets.Keys, listed, below, todo)
      decreases |todo|
    {
      SomeMember(todo);
      var id :| id in todo;
      var meta := current[id];
      DecideOne(updates, current, targets.Keys, listed, below, todo, id);
      if listed.Some? && id !in listed.value && (below.None? || id < below.value) {
        updates := updates[id := NO_META];
      } else if meta.targetId.Some? && meta.targetId.value !in targets {
        updates := updates[id := CommandMeta(None, meta.icon)];
      }
      todo := todo - {id};
    }
    AllDecided(updates, current, targets.Keys, listed, below);
    if updates == map[] {
      return None;
    }
    var options := WriteOptions(entry, updates);
    return Some(options);
  }

  /** The entry once a prune has been applied, whether or not it had anything to do. */
  ghost function Pruned(entry: Entry, listed: Option<set<int>>, below: Option<int>): Entry {
    match OptionsPrunedTo(entry, listed, below)
    case None => entry
    case Some(options) => entry.(options := options)
  }

  /** Exactly what a prune leaves: who stays, which target, which icon. */
  lemma {:induction false} PruneKeeps(entry: Entry, listed: Option<set<int>>, below: Option<int>)
    ensures var was, now := CommandMetaOf(entry), CommandMetaOf(Pruned(entry, listed, below));
            var known := TargetsOf(entry).Keys;
            && (forall id :: id in now <==>
                  id in was && !Gone(id, listed, below) && !(Dangling(was[id], known) && was[id].icon == None))
            && (forall id :: id in now ==>
                  && now[id].icon == was[id].icon
                  && now[id].targetId == if Dangling(was[id], known) then None else was[id].targetId)
    ensures TargetsOf(Pruned(entry, listed, below)) == TargetsOf(entry)
  {
    hide MetaUpTo, StoredUpTo, TargetsUpTo, SortedKeys, StoredItems;
    var was := CommandMetaOf(entry);
    var updates := Updates(was, TargetsOf(entry).Keys, listed, below);
    MetaReadIsStorable(StoredItems(entry), |StoredItems(entry)|);
    if updates == map[] {
      forall id | id in was
        ensures !Gone(id, listed, below) && !Dangling(was[id], TargetsOf(entry).Keys)
      {
        assert id !in updates;
      }
    } else {
      OptionsRoundTrip(entry, Merged(was, updates));
    }
  }

  /** Nothing else in the entry is touched. */
  lemma {:induction false} PruneTouchesOnlyCommands(entry: Entry, listed: Option<set<int>>, below: Option<int>)
    ensures Pruned(entry, listed, below).subentries == entry.subentries
    ensures Pruned(entry, listed, below).options - {"commands"} == entry.options - {"commands"}
  {
  }

  /**
   * Pruning is a fixed point: applied once, the same prune finds nothing more, so the entry update it
   * causes re-enters and stops. Every assignment left names a target that exists.
   */
  lemma {:induction false} PruneIsFixedPoint(entry: Entry, listed: Option<set<int>>, below: Option<int>)
    ensures OptionsPrunedTo(Pruned(entry, listed, below), listed, below) == None
    ensures var now := CommandMetaOf(Pruned(entry, listed, below));
            forall id :: id in now && now[id].targetId.Some? ==> now[id].targetId.value in TargetsOf(entry)
  {
    PruneKeeps(entry, listed, below);
    var after := Pruned(entry, listed, below);
    var updates := Updates(CommandMetaOf(after), TargetsOf(after).Keys, listed, below);
    assert forall id :: id !in updates;
  }

  /** With no listing to trust, pruning clears assignments to missing targets and nothing else. */
  lemma {:induction false} PruneWithoutListing(entry: Entry, below: Option<int>)
    ensures var was, now := CommandMetaOf(entry), CommandMetaOf(Pruned(entry, None, below));
            forall id :: id in was && was[id].icon.Some? ==> id in now && now[id].icon == was[id].icon
    ensures forall id :: AssignedTarget(Pruned(entry, None, below), id) == AssignedTarget(entry, id)
  {
    PruneKeeps(entry, None, below);
  }

  /** No command that is not gone changes target by being pruned, and it keeps its icon. */
  lemma {:induction false} PruneKeepsAssignments(entry: Entry, listed: Option<set<int>>, below: Option<int>, id: int)
    requires !Gone(id, listed, below)
    ensures AssignedTarget(Pruned(entry, listed, below), id) == AssignedTarget(entry, id)
    ensures IconOf(Pruned(entry, listed, below), id) == IconOf(entry, id)
    ensures var was, now := CommandMetaOf(entry), CommandMetaOf(Pruned(entry, listed, below));
            id in was && was[id].icon.Some? ==> id in now && now[id].icon == was[id].icon
  {
    PruneKeeps(entry, listed, below);
  }
}

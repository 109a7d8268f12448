/**
 * Place monitors over two expiring stores: the monitors themselves, scoped by
 * owner, and the index of owners the scheduler walks.
 */
module Monitors {
  import opened Prelude
  import opened RecordStore
  import opened MonitorLog

  const MONITOR_NAMESPACE := "maps:monitors"
  const OWNER_INDEX_NAMESPACE := "maps:monitor-owners"
  const INDEX_OWNER := "__scheduler_index__"
  const TTL: real := 604800.0
  const MAX_OWNERS := 10000
  const MAX_DUE := 500

  datatype Error = MissingTarget | TargetNotAllowed | MonitorNotFound

  /** What a check reports to its caller. */
  datatype Report = Report(checked: bool, changes: map<string, Change>, error: Option<string>)

  /** The place lookup, for any monitor of any owner. */
  type Lookup = (string, string) -> Scrape

  predicate Due(m: Monitor, cutoff: real) {
    m.active && m.nextCheck <= cutoff
  }

  /** The ids of an owner's monitors that are live at `now` and due at the cutoff. */
  function DueOf(table: Table<Monitor>, owner: string, cutoff: real, now: real): set<string> {
    set c | c in table && c.0 == owner && now <= table[c].expires && Due(table[c].record.data, cutoff) :: c.1
  }

  /** A stored monitor that is alive, active and past its next check. */
  predicate Awaited(slot: Slot<Monitor>, cutoff: real, now: real) {
    now <= slot.expires && slot.record.data.active && slot.record.data.nextCheck <= cutoff
  }

  lemma DueOfIff(table: Table<Monitor>, owner: string, cutoff: real, now: real, id: string)
    ensures id in DueOf(table, owner, cutoff, now) <==>
      (owner, id) in table && Awaited(table[(owner, id)], cutoff, now)
  {
  }

  function IndexedOwners(index: Table<string>, now: real): set<string> {
    set c | c in index && now <= index[c].expires :: c.1
  }

  lemma IndexedOwnersIff(index: Table<string>, now: real, owner: string)
    requires forall c :: c in index ==> c.0 == INDEX_OWNER
    ensures owner in IndexedOwners(index, now) <==>
      ("__scheduler_index__", owner) in index && now <= index[("__scheduler_index__", owner)].expires
  {
  }

  function Noted(index: Table<string>, owner: string, now: real): Table<string> {
    PutInto(index, INDEX_OWNER, owner, owner, now, TTL)
  }

  function ReportOf(m: Monitor, s: Scrape): Report {
    if Fails(s) then Report(false, map[], Some(if s.message == "" then "place lookup failed" else s.message))
    else Report(true, Diff(m.lastSnapshot, Observe(s.place, Tracked(m))), None)
  }

  /** A check that succeeds reports what changed; one that fails reports the error it leaves behind. */
  ghost predicate Reports(r: Report, m: Monitor, s: Scrape) {
    && (r.checked <==> !s.error && s.place != map[])
    && (if r.checked then r.error.None? && ChangesAre(m, s, r.changes)
        else r.changes == map[] && r.error.Some? && FailedWith(s, r.error.value))
  }

  lemma ReportIsTrue(m: Monitor, s: Scrape)
    ensures Reports(ReportOf(m, s), m, s)
  {
    DiffIsTheChanges(m, s);
  }

  // ---- What the operations do to the two tables --------------------------------------

  /** The monitors by (owner, id) and the owner index by (INDEX_OWNER, owner). */
  datatype World = World(table: Table<Monitor>, index: Table<string>)

  function Created(w: World, owner: string, id: string, intervalHours: int, fields: seq<string>, now: real): World {
    World(PutInto(w.table, owner, id, Fresh(intervalHours, fields, now), now, TTL), Noted(w.index, owner, now))
  }

  /** A check writes monitor and index again, also when the scrape failed. */
  function Checked(w: World, owner: string, id: string, s: Scrape, now: real): World {
    match Alive(w.table, owner, id, now)
    case None => w.(table := AfterRead(w.table, owner, id, now))
    case Some(record) =>
      World(PutInto(w.table, owner, id, AfterCheck(record.data, s, now), now, TTL), Noted(w.index, owner, now))
  }

  ghost function Deleted(w: World, owner: string, id: string, now: real): World {
    if (owner, id) !in w.table then w
    else
      var table := LiveOnly(w.table - {(owner, id)}, now);
      World(table, if exists other :: (owner, other) in table then w.index else w.index - {(INDEX_OWNER, owner)})
  }

  /** The owner of every live monitor has an index entry that lives at least as long. */
  ghost predicate Covered(table: Table<Monitor>, index: Table<string>, now: real) {
    forall c :: c in table && now <= table[c].expires ==>
      (INDEX_OWNER, c.0) in index && table[c].expires <= index[(INDEX_OWNER, c.0)].expires
  }

  /** Monitor and owner are stored, both for a week from now. */
  ghost predicate Lists(w: World, owner: string, id: string, now: real, record: Record<Monitor>) {
    && (owner, id) in w.table && w.table[(owner, id)] == Slot(now + 604800.0, record)
    && record.id == id && record.owner == owner && record.updatedAt == now
    && ("__scheduler_index__", owner) in w.index
    && w.index[("__scheduler_index__", owner)].expires == now + 604800.0
    && w.index[("__scheduler_index__", owner)].record.data == owner
  }

  ghost predicate ElseUnchanged<D>(before: Table<D>, after: Table<D>, cell: (string, string)) {
    forall c :: c != cell ==> (c in after <==> c in before) && (c in after ==> after[c] == before[c])
  }

  /** A check found the record, rewrote it as the scrape demands, and touched no other monitor. */
  ghost predicate CheckedAs(w: World, after: World, owner: string, id: string, s: Scrape, now: real) {
    && (owner, id) in w.table && (owner, id) in after.table && now <= w.table[(owner, id)].expires
    && var before, rewritten := w.table[(owner, id)].record, after.table[(owner, id)].record;
       && Rewritten(before.data, rewritten.data, s, now) && rewritten.createdAt == before.createdAt
       && Lists(after, owner, id, now, rewritten) && ElseUnchanged(w.table, after.table, (owner, id))
  }

  lemma CheckedInPlainTerms(w: World, owner: string, id: string, s: Scrape, now: real)
    ensures Alive(w.table, owner, id, now).Some? ==> CheckedAs(w, Checked(w, owner, id, s, now), owner, id, s, now)
  {
    if Alive(w.table, owner, id, now).Some? {
      CheckRewrites(w.table[(owner, id)].record.data, s, now);
    }
  }

  class Service {
    const monitors: Store<Monitor>
    const owners: Store<string>
    ghost var table: Table<Monitor>
    ghost var index: Table<string>

    ghost predicate Valid()
      reads this, monitors, owners
    {
      && (monitors as object) != this && (owners as object) != this && (monitors as object) != owners
      && monitors.Valid() && owners.Valid()
      && monitors.namespace == MONITOR_NAMESPACE && monitors.ttl == TTL
      && owners.namespace == OWNER_INDEX_NAMESPACE && owners.ttl == TTL
      && Represents(monitors.memory, MONITOR_NAMESPACE, table)
      && Represents(owners.memory, OWNER_INDEX_NAMESPACE, index)
      && forall c :: c in index ==> c.0 == INDEX_OWNER && ColonFree(c.1) && index[c].record.data == c.1
    }

    constructor ()
      ensures Valid() && fresh(monitors) && fresh(owners)
      ensures table == map[] && index == map[]
      ensures monitors.namespace == "maps:monitors" && owners.namespace == "maps:monitor-owners"
      ensures monitors.ttl == owners.ttl == 604800.0
    {
      monitors := new Store(MONITOR_NAMESPACE, TTL);
      owners := new Store(OWNER_INDEX_NAMESPACE, TTL);
      table, index := map[], map[];
    }

    method RememberOwner(owner: string, now: real)
      requires Valid() && ColonFree(owner)
      modifies this`index, owners
      ensures Valid() && index == Noted(old(index), owner, now)
    {
      PutRefines(owners.memory, OWNER_INDEX_NAMESPACE, index, INDEX_OWNER, owner, owner, now, TTL);
      var _ := owners.Put(INDEX_OWNER, owner, owner, now);
      index := Noted(index, owner, now);
    }

    method Save(owner: string, id: string, data: Monitor, now: real) returns (record: Record<Monitor>)
      requires Valid() && ColonFree(owner)
      modifies this`table, monitors
      ensures Valid() && table == PutInto(old(table), owner, id, data, now, TTL)
      ensures record == table[(owner, id)].record
    {
      PutRefines(monitors.memory, MONITOR_NAMESPACE, table, owner, id, data, now, TTL);
      GetRefines(monitors.memory, MONITOR_NAMESPACE, table, owner, id, now);
      record := monitors.Put(owner, id, data, now);
      table := PutInto(table, owner, id, data, now, TTL);
    }

    /** Reads a monitor; one that has expired is dropped on the way. */
    method Load(owner: string, id: string, now: real) returns (record: Option<Record<Monitor>>)
      requires Valid() && ColonFree(owner)
      modifies this`table, monitors
      ensures Valid() && record == Alive(old(table), owner, id, now)
      ensures table == AfterRead(old(table), owner, id, now)
    {
      GetRefines(monitors.memory, MONITOR_NAMESPACE, table, owner, id, now);
      ReadRefines(monitors.memory, MONITOR_NAMESPACE, table, owner, id, now);
      record := monitors.Get(owner, id, now);
      table := AfterRead(table, owner, id, now);
    }

    /** Drops the owner from the index once no live monitor of theirs is left. */
    method ForgetOwnerIfEmpty(owner: string, now: real)
      requires Valid() && ColonFree(owner)
      modifies this, monitors, owners
      ensures Valid() && table == LiveOnly(old(table), now)
      ensures var left := exists other :: (owner, other) in table;
        index == if left then old(index) else old(index) - {(INDEX_OWNER, owner)}
    {
      SweepRefines(monitors.memory, MONITOR_NAMESPACE, table, now);
      AnyListed(monitors.memory, MONITOR_NAMESPACE, table, owner, now);
      var remaining := monitors.ListForOwner(owner, 1, 0, r => true, NewestFirst(), now);
      table := LiveOnly(table, now);
      if remaining == [] {
        DeleteRefines(owners.memory, OWNER_INDEX_NAMESPACE, index, INDEX_OWNER, owner);
        var _ := owners.Delete(INDEX_OWNER, owner);
        index := index - {(INDEX_OWNER, owner)};
      }
    }

    method Remove(owner: string, id: string) returns (existed: bool)
      requires Valid() && ColonFree(owner)
      modifies this`table, monitors
      ensures Valid() && table == old(table) - {(owner, id)} && (existed <==> (owner, id) in old(table))
    {
      GetRefines(monitors.memory, MONITOR_NAMESPACE, table, owner, id, 0.0);
      DeleteRefines(monitors.memory, MONITOR_NAMESPACE, table, owner, id);
      existed := monitors.Delete(owner, id);
      table := table - {(owner, id)};
    }

    /** The due monitors of an owner, at most 500 of them; expired ones are swept on the way. */
    method ListDue(owner: string, cutoff: real, now: real) returns (due: seq<Record<Monitor>>)
      requires Valid() && ColonFree(owner)
      modifies this`table, monitors
      ensures Valid() && table == LiveOnly(old(table), now)
      ensures UniqueIds(due) && Ids(due) <= DueOf(old(table), owner, cutoff, now)
      ensures forall i :: 0 <= i < |due| ==> Alive(old(table), owner, due[i].id, now) == Some(due[i])
      ensures |DueOf(old(table), owner, cutoff, now)| <= 500 ==> Ids(due) == DueOf(old(table), owner, cutoff, now)
      ensures |due| <= 500
    {
      ListedDue(monitors.memory, table, owner, cutoff, now);
      SweepRefines(monitors.memory, MONITOR_NAMESPACE, table, now);
      due := monitors.ListForOwner(owner, MAX_DUE, 0, (r: Record<Monitor>) => Due(r.data, cutoff), NewestFirst(), now);
      table := LiveOnly(table, now);
    }

    method ListOwners(now: real) returns (records: seq<Record<string>>)
      requires Valid()
      modifies this`index, owners
      ensures Valid() && index == LiveOnly(old(index), now)
      ensures OwnerPage(records, old(index), now)
    {
      ListedOwners(owners.memory, index, now);
      SweepRefines(owners.memory, OWNER_INDEX_NAMESPACE, index, now);
      records := owners.ListForOwner(INDEX_OWNER, MAX_OWNERS, 0, r => true, NewestFirst(), now);
      index := LiveOnly(index, now);
    }

    /** The indexed owners, at most 10,000 of them; lapsed entries are swept on the way. */
    method KnownOwners(now: real) returns (known: seq<string>)
      requires Valid()
      modifies this`index, owners
      ensures Valid() && index == LiveOnly(old(index), now)
      ensures forall i, j :: 0 <= i < j < |known| ==> known[i] != known[j]
      ensures forall o :: o in known ==> o in IndexedOwners(old(index), now) && ColonFree(o)
      ensures |known| <= 10000
      ensures |IndexedOwners(old(index), now)| <= 10000 ==>
        forall o :: o in IndexedOwners(old(index), now) ==> o in known
    {
      var records := ListOwners(now);
      known := seq(|records|, i requires 0 <= i < |records| => records[i].data);
      PageNames(records, old(index), now, known);
    }

    /** Stores a fresh monitor and lists its owner in the index, or refuses and changes nothing. */
    method CreateMonitor(owner: string, id: string, placeId: string, url: string, targetsAllowed: bool,
                         intervalHours: int, fields: seq<string>, now: real) returns (r: Result<Record<Monitor>, Error>)
      requires Valid() && ColonFree(owner)
      modifies this, monitors, owners
      ensures Valid()
      ensures r == Err(MissingTarget) <==> placeId == "" && url == ""
      ensures r == Err(TargetNotAllowed) <==> !(placeId == "" && url == "") && !targetsAllowed
      ensures r.Err? ==> r.error.MissingTarget? || r.error.TargetNotAllowed?
      ensures r.Err? ==> table == old(table) && index == old(index)
      ensures r.Ok? ==>
        && World(table, index) == Created(old(World(table, index)), owner, id, intervalHours, fields, now)
        && Alive(table, owner, id, now) == Some(r.value)
      ensures r.Ok? ==>
        && BornWith(r.value.data, intervalHours, fields, now)
        && Lists(World(table, index), owner, id, now, r.value)
        && ElseUnchanged(old(table), table, (owner, id))
    {
      if placeId == "" && url == "" {
        return Err(MissingTarget);
      }
      if !targetsAllowed {
        return Err(TargetNotAllowed);
      }
      FreshIsBorn(intervalHours, fields, now);
      var record := Save(owner, id, Fresh(intervalHours, fields, now), now);
      RememberOwner(owner, now);
      return Ok(record);
    }

    /** One check of a live monitor; a monitor that is gone is reported as not found. */
    method CheckMonitor(owner: string, id: string, fetch: Lookup, now: real) returns (r: Result<Report, Error>)
      requires Valid() && ColonFree(owner)
      modifies this, monitors, owners
      ensures Valid()
      ensures World(table, index) == Checked(old(World(table, index)), owner, id, fetch(owner, id), now)
      ensures r == match Alive(old(table), owner, id, now)
        case None => Err(MonitorNotFound)
        case Some(record) => Ok(ReportOf(record.data, fetch(owner, id)))
      ensures r.Ok? ==>
        && CheckedAs(old(World(table, index)), World(table, index), owner, id, fetch(owner, id), now)
        && Reports(r.value, old(table)[(owner, id)].record.data, fetch(owner, id))
    {
      CheckedInPlainTerms(World(table, index), owner, id, fetch(owner, id), now);
      var record := Load(owner, id, now);
      if record.None? {
        return Err(MonitorNotFound);
      }
      var s := fetch(owner, id);
      ReportIsTrue(record.value.data, s);
      var _ := Save(owner, id, AfterCheck(record.value.data, s, now), now);
      RememberOwner(owner, now);
      return Ok(ReportOf(record.value.data, s));
    }

    /** Deletes a stored monitor and, when it was the owner's last live one, the owner's index entry. */
    method DeleteMonitor(owner: string, id: string, now: real) returns (r: Result<(), Error>)
      requires Valid() && ColonFree(owner)
      modifies this, monitors, owners
      ensures Valid()
      ensures r.Ok? <==> (owner, id) in old(table)
      ensures r.Err? ==> r.error == MonitorNotFound
      ensures World(table, index) == Deleted(old(World(table, index)), owner, id, now)
      ensures r.Ok? ==> table == LiveOnly(old(table) - {(owner, id)}, now)
      ensures r.Ok? ==> var left := exists other :: (owner, other) in table;
        index == if left then old(index) else old(index) - {("__scheduler_index__", owner)}
      ensures r.Err? ==> table == old(table) && index == old(index)
    {
      var existed := Remove(owner, id);
      if !existed {
        assert table == old(table);
        return Err(MonitorNotFound);
      }
      ForgetOwnerIfEmpty(owner, now);
      return Ok(());
    }
  }

  // ---- The index covers the monitors over every run -----------------------------------

  datatype Op =
    | Create(owner: string, id: string, intervalHours: int, fields: seq<string>)
    | Check(owner: string, id: string, scrape: Scrape)
    | Delete(owner: string, id: string)

  ghost function Do(w: World, op: Op, now: real): World {
    match op
    case Create(owner, id, intervalHours, fields) => Created(w, owner, id, intervalHours, fields, now)
    case Check(owner, id, scrape) => Checked(w, owner, id, scrape, now)
    case Delete(owner, id) => Deleted(w, owner, id, now)
  }

  ghost function After(run: seq<(Op, real)>): World {
    if run == [] then World(map[], map[])
    else Do(After(run[..|run| - 1]), run[|run| - 1].0, run[|run| - 1].1)
  }

  ghost predicate Monotone(run: seq<(Op, real)>, now: real) {
    forall i :: 0 <= i < |run| ==> run[i].1 <= now && forall j :: i <= j < |run| ==> run[i].1 <= run[j].1
  }

  /** The index entry of a monitor outlives it; no monitor outlives a full lifetime from now; intervals are positive. */
  ghost predicate Safe(w: World, now: real) {
    && Covered(w.table, w.index, now)
    && forall c :: c in w.table ==> w.table[c].expires <= now + TTL && 1 <= w.table[c].record.data.intervalHours
  }

  lemma DoKeepsSafe(w: World, op: Op, now: real)
    requires Safe(w, now)
    ensures Safe(Do(w, op, now), now)
  {
  }

  lemma LaterIsSafe(w: World, now: real, later: real)
    requires Safe(w, now) && now <= later
    ensures Safe(w, later)
  {
  }

  lemma {:induction false} RunIsSafe(run: seq<(Op, real)>, now: real)
    requires Monotone(run, now)
    ensures Safe(After(run), now)
  {
    if run != [] {
      var front, last := run[..|run| - 1], run[|run| - 1];
      RunIsSafe(front, last.1);
      DoKeepsSafe(After(front), last.0, last.1);
      LaterIsSafe(After(run), last.1, now);
    }
  }

  /** After any run of creations, checks and deletions, every live monitor's owner is indexed for at least as long. */
  lemma IndexCoversMonitors(run: seq<(Op, real)>, now: real, owner: string, id: string)
    requires Monotone(run, now) && Alive(After(run).table, owner, id, now).Some?
    ensures var w := After(run);
      (INDEX_OWNER, owner) in w.index && w.table[(owner, id)].expires <= w.index[(INDEX_OWNER, owner)].expires
  {
    RunIsSafe(run, now);
  }

  lemma PageOfAll<T>(s: seq<T>, limit: nat)
    ensures var page := Page(s, 0, limit);
      |page| <= |s| && (forall i :: 0 <= i < |page| ==> page[i] == s[i]) && (|s| <= limit ==> page == s)
  {
  }

  lemma ListedDue(slots: Slots<Monitor>, m: Table<Monitor>, owner: string, cutoff: real, now: real)
    requires Represents(slots, MONITOR_NAMESPACE, m) && ColonFree(owner)
    ensures var keep := (r: Record<Monitor>) => Due(r.data, cutoff);
      var listed := Listed(slots, OwnerPrefix(MONITOR_NAMESPACE, owner), keep, NewestFirst(), now);
      var page := Page(listed, 0, MAX_DUE);
      && UniqueIds(page) && Ids(page) <= DueOf(m, owner, cutoff, now)
      && (forall i :: 0 <= i < |page| ==> Alive(m, owner, page[i].id, now) == Some(page[i]))
      && (|DueOf(m, owner, cutoff, now)| <= MAX_DUE ==> Ids(page) == DueOf(m, owner, cutoff, now))
  {
    var keep := (r: Record<Monitor>) => Due(r.data, cutoff);
    var listed := Listed(slots, OwnerPrefix(MONITOR_NAMESPACE, owner), keep, NewestFirst(), now);
    ListedUnique(slots, MONITOR_NAMESPACE, m, owner, keep, NewestFirst(), now);
    UniqueIdsCount(listed);
    PageOfAll(listed, MAX_DUE);
    forall i | 0 <= i < |listed|
      ensures Due(listed[i].data, cutoff) && Alive(m, owner, listed[i].id, now) == Some(listed[i])
    {
      ListAgreesWithGet(slots, MONITOR_NAMESPACE, m, owner, keep, NewestFirst(), now, listed[i]);
      GetRefines(slots, MONITOR_NAMESPACE, m, owner, listed[i].id, now);
    }
    forall id | id in DueOf(m, owner, cutoff, now) ensures id in Ids(listed) {
      var r := m[(owner, id)].record;
      ListAgreesWithGet(slots, MONITOR_NAMESPACE, m, owner, keep, NewestFirst(), now, r);
      GetRefines(slots, MONITOR_NAMESPACE, m, owner, id, now);
      var i :| 0 <= i < |listed| && listed[i] == r;
    }
    assert Ids(listed) == DueOf(m, owner, cutoff, now);
  }

  /** A page of the owner index: each record once, all of them live, and all there are if they fit. */
  ghost predicate OwnerPage(page: seq<Record<string>>, m: Table<string>, now: real) {
    && UniqueIds(page)
    && (forall i :: 0 <= i < |page| ==>
          page[i].data == page[i].id && Alive(m, INDEX_OWNER, page[i].id, now) == Some(page[i]))
    && |page| <= MAX_OWNERS
    && (|IndexedOwners(m, now)| <= MAX_OWNERS ==> Ids(page) == IndexedOwners(m, now))
  }

  lemma PageNames(page: seq<Record<string>>, m: Table<string>, now: real, known: seq<string>)
    requires OwnerPage(page, m, now) && forall c :: c in m ==> ColonFree(c.1)
    requires |known| == |page| && forall i :: 0 <= i < |page| ==> known[i] == page[i].data
    ensures forall i, j :: 0 <= i < j < |known| ==> known[i] != known[j]
    ensures forall o :: o in known ==> o in IndexedOwners(m, now) && ColonFree(o)
    ensures |IndexedOwners(m, now)| <= MAX_OWNERS ==> forall o :: o in IndexedOwners(m, now) ==> o in known
  {
  }

  lemma ListedOwners(slots: Slots<string>, m: Table<string>, now: real)
    requires Represents(slots, OWNER_INDEX_NAMESPACE, m)
    requires forall c :: c in m ==> c.0 == INDEX_OWNER && m[c].record.data == c.1
    ensures var keep := (r: Record<string>) => true;
      var listed := Listed(slots, OwnerPrefix(OWNER_INDEX_NAMESPACE, INDEX_OWNER), keep, NewestFirst(), now);
      OwnerPage(Page(listed, 0, MAX_OWNERS), m, now)
  {
    var keep := (r: Record<string>) => true;
    var listed := Listed(slots, OwnerPrefix(OWNER_INDEX_NAMESPACE, INDEX_OWNER), keep, NewestFirst(), now);
    ListedUnique(slots, OWNER_INDEX_NAMESPACE, m, INDEX_OWNER, keep, NewestFirst(), now);
    UniqueIdsCount(listed);
    PageOfAll(listed, MAX_OWNERS);
    forall i | 0 <= i < |listed| ensures Alive(m, INDEX_OWNER, listed[i].id, now) == Some(listed[i]) {
      ListAgreesWithGet(slots, OWNER_INDEX_NAMESPACE, m, INDEX_OWNER, keep, NewestFirst(), now, listed[i]);
      GetRefines(slots, OWNER_INDEX_NAMESPACE, m, INDEX_OWNER, listed[i].id, now);
    }
    forall o | o in IndexedOwners(m, now) ensures o in Ids(listed) {
      var r := m[(INDEX_OWNER, o)].record;
      ListAgreesWithGet(slots, OWNER_INDEX_NAMESPACE, m, INDEX_OWNER, keep, NewestFirst(), now, r);
      GetRefines(slots, OWNER_INDEX_NAMESPACE, m, INDEX_OWNER, o, now);
      var i :| 0 <= i < |listed| && listed[i] == r;
    }
    assert Ids(listed) == IndexedOwners(m, now);
  }

  /** Listing one record tells whether the owner has any live one left. */
  lemma AnyListed<D>(slots: Slots<D>, namespace: string, m: Table<D>, owner: string, now: real)
    requires Represents(slots, namespace, m) && ColonFree(owner)
    ensures Page(Listed(slots, OwnerPrefix(namespace, owner), (r: Record<D>) => true, NewestFirst(), now), 0, 1) == []
       <==> !exists other :: (owner, other) in LiveOnly(m, now)
  {
    var listed := Listed(slots, OwnerPrefix(namespace, owner), (r: Record<D>) => true, NewestFirst(), now);
    if listed != [] {
      ListAgreesWithGet(slots, namespace, m, owner, (r: Record<D>) => true, NewestFirst(), now, listed[0]);
      GetRefines(slots, namespace, m, owner, listed[0].id, now);
      assert (owner, listed[0].id) in LiveOnly(m, now);
    }
    forall other | (owner, other) in LiveOnly(m, now) ensures listed != [] {
      var record := m[(owner, other)].record;
      ListAgreesWithGet(slots, namespace, m, owner, (r: Record<D>) => true, NewestFirst(), now, record);
      GetRefines(slots, namespace, m, owner, other, now);
    }
  }
}

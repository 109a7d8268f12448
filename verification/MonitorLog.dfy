/**
 * The change log of a place monitor: what one check does to the stored record,
 * and what the record tells about the scrapes it has seen.
 */
module MonitorLog {
  import opened Prelude

  /** A JSON value, known only up to equality. */
  type Value = string

  /** What a scrape returned: a field may be missing or null. */
  type Place = map<string, Option<Value>>

  type Snapshot = map<string, Value>

  datatype Change = Change(before: Value, after: Value)

  datatype Entry = Entry(timestamp: real, changes: map<string, Change>, snapshot: Snapshot, baseline: bool)

  /** The reply of the place lookup; a lookup that raises is an error reply with the exception's text. */
  datatype Scrape = Scrape(error: bool, message: string, place: Place)

  datatype Monitor = Monitor(
    intervalHours: int,
    fields: seq<string>,
    active: bool,
    nextCheck: real,
    lastChecked: Option<real>,
    lastError: Option<string>,
    checkCount: nat,
    changeCount: nat,
    lastSnapshot: Option<Snapshot>,
    history: seq<Entry>)

  const MAX_HISTORY_ENTRIES := 200

  const DEFAULT_TRACK_FIELDS := [
    "name", "address", "phone", "website", "hours", "rating", "review_count", "price_level", "category"]

  // ---- One check ------------------------------------------------------------------

  predicate Fails(s: Scrape) {
    s.error || s.place == map[]
  }

  function Tracked(m: Monitor): seq<string> {
    if m.fields == [] then DEFAULT_TRACK_FIELDS else m.fields
  }

  /** The tracked fields the scrape actually saw. */
  function Observe(place: Place, fields: seq<string>): Snapshot {
    map f | f in fields && f in place && place[f].Some? :: place[f].value
  }

  /** Fields seen in both snapshots with different values; a first observation changes nothing. */
  function Diff(previous: Option<Snapshot>, current: Snapshot): map<string, Change> {
    if previous.None? then map[]
    else
      var was := previous.value;
      map f | f in current && f in was && was[f] != current[f] :: Change(was[f], current[f])
  }

  function Merge(previous: Option<Snapshot>, current: Snapshot): Snapshot {
    match previous
    case None => current
    case Some(was) => was + current
  }

  function DueAgain(m: Monitor, now: real): real {
    now + (m.intervalHours * 3600) as real
  }

  /** The record a check leaves behind. */
  function AfterCheck(m: Monitor, s: Scrape, now: real): Monitor {
    var checked := m.(lastChecked := Some(now), nextCheck := DueAgain(m, now), checkCount := m.checkCount + 1);
    if Fails(s) then
      checked.(lastError := Some(if s.message == "" then "place lookup failed" else s.message))
    else
      var snapshot := Observe(s.place, Tracked(m));
      var changes := Diff(m.lastSnapshot, snapshot);
      var entry := Entry(now, changes, snapshot, m.lastSnapshot.None?);
      checked.(
        lastError := None,
        changeCount := m.changeCount + if changes != map[] then 1 else 0,
        lastSnapshot := Some(Merge(m.lastSnapshot, snapshot)),
        history := if m.lastSnapshot.None? || changes != map[] then Last(m.history + [entry], MAX_HISTORY_ENTRIES)
                   else m.history)
  }

  /** A monitor as it is created at `now`. */
  function Fresh(intervalHours: int, fields: seq<string>, now: real): Monitor {
    var interval := Max(1, intervalHours);
    Monitor(interval, if fields == [] then DEFAULT_TRACK_FIELDS else fields, true, now + (interval * 3600) as real,
            None, None, 0, 0, None, [])
  }

  // ---- The record of a creation and of one check, field by field ---------------------------

  /** What a monitor asked for with these arguments at `now` starts as. */
  ghost predicate BornWith(m: Monitor, intervalHours: int, fields: seq<string>, now: real) {
    && m.intervalHours == (if intervalHours < 1 then 1 else intervalHours)
    && m.fields == (if fields != [] then fields else
         ["name", "address", "phone", "website", "hours", "rating", "review_count", "price_level", "category"])
    && m.nextCheck == now + 3600.0 * m.intervalHours as real
    && m.active && m.lastChecked.None? && m.lastError.None?
    && JustCreated(m)
  }

  lemma FreshIsBorn(intervalHours: int, fields: seq<string>, now: real)
    ensures BornWith(Fresh(intervalHours, fields, now), intervalHours, fields, now)
  {
  }

  /** A scrape that saw nothing: the error it leaves is its own message, or the standard one. */
  ghost predicate FailedWith(s: Scrape, error: string) {
    (s.error || s.place == map[]) && error == if s.message == "" then "place lookup failed" else s.message
  }

  /** The scrape saw `v` for `f`, which the monitor tracks. */
  ghost predicate Saw(m: Monitor, s: Scrape, f: string, v: Value) {
    && f in (if m.fields == [] then DEFAULT_TRACK_FIELDS else m.fields)
    && f in s.place && s.place[f] == Some(v)
  }

  /** What one check makes of the record, whatever the scrape. */
  ghost predicate Rewritten(m: Monitor, after: Monitor, s: Scrape, now: real) {
    && after.intervalHours == m.intervalHours && after.fields == m.fields && after.active == m.active
    && after.lastChecked == Some(now) && after.checkCount == m.checkCount + 1
    && after.nextCheck == now + 3600.0 * m.intervalHours as real
    && (if s.error || s.place == map[] then
          && after.lastError.Some? && FailedWith(s, after.lastError.value)
          && after.lastSnapshot == m.lastSnapshot && after.history == m.history && after.changeCount == m.changeCount
        else
          after.lastError.None? && after.lastSnapshot.Some? && Remembers(m, after.lastSnapshot.value, s))
  }

  /** Every field just seen has the value seen; every other one keeps what was known of it. */
  ghost predicate Remembers(m: Monitor, snapshot: Snapshot, s: Scrape) {
    forall f {:trigger RemembersField(m, snapshot, s, f)} :: RemembersField(m, snapshot, s, f)
  }

  ghost predicate RemembersField(m: Monitor, snapshot: Snapshot, s: Scrape, f: string) {
    if f in s.place && s.place[f].Some? && Saw(m, s, f, s.place[f].value) then
      f in snapshot && snapshot[f] == s.place[f].value
    else if f in snapshot then Knew(m, f, snapshot[f])
    else m.lastSnapshot.None? || f !in m.lastSnapshot.value
  }

  ghost predicate Knew(m: Monitor, f: string, v: Value) {
    m.lastSnapshot.Some? && f in m.lastSnapshot.value && m.lastSnapshot.value[f] == v
  }

  lemma MergeRemembers(m: Monitor, s: Scrape)
    ensures Remembers(m, Merge(m.lastSnapshot, Observe(s.place, Tracked(m))), s)
  {
  }

  lemma CheckRewrites(m: Monitor, s: Scrape, now: real)
    ensures Rewritten(m, AfterCheck(m, s, now), s, now)
  {
    MergeRemembers(m, s);
  }

  /** What changed: the fields known before with one value and seen now with another. */
  ghost predicate ChangesAre(m: Monitor, s: Scrape, changes: map<string, Change>) {
    && (forall f, was, seen :: Knew(m, f, was) && Saw(m, s, f, seen) && was != seen ==>
          f in changes && changes[f] == Change(was, seen))
    && (forall f :: f in changes ==>
          && Knew(m, f, changes[f].before) && Saw(m, s, f, changes[f].after)
          && changes[f].before != changes[f].after)
  }

  lemma DiffIsTheChanges(m: Monitor, s: Scrape)
    ensures ChangesAre(m, s, Diff(m.lastSnapshot, Observe(s.place, Tracked(m))))
  {
  }

  // ---- Runs of checks, and what they ought to have recorded -------------------------

  datatype Check = Check(at: real, scrape: Scrape)

  function AfterChecks(m: Monitor, checks: seq<Check>): Monitor {
    if checks == [] then m
    else
      var last := checks[|checks| - 1];
      AfterCheck(AfterChecks(m, checks[..|checks| - 1]), last.scrape, last.at)
  }

  /** `scrape` succeeded and saw a value for the tracked field `f`. */
  predicate Sees(s: Scrape, fields: seq<string>, f: string) {
    !Fails(s) && f in fields && f in s.place && s.place[f].Some?
  }

  /** The most recent value any scrape saw for `f`. */
  function LastSeen(checks: seq<Check>, fields: seq<string>, f: string): Option<Value> {
    if checks == [] then None
    else
      var s := checks[|checks| - 1].scrape;
      if Sees(s, fields, f) then s.place[f] else LastSeen(checks[..|checks| - 1], fields, f)
  }

  /** How many scrapes succeeded. */
  function Successes(checks: seq<Check>): nat {
    if checks == [] then 0
    else Successes(checks[..|checks| - 1]) + if Fails(checks[|checks| - 1].scrape) then 0 else 1
  }

  /** `f` has just been seen with another value than the one seen before it. */
  predicate Moves(checks: seq<Check>, fields: seq<string>, f: string)
    requires checks != []
  {
    var front, s := checks[..|checks| - 1], checks[|checks| - 1].scrape;
    Sees(s, fields, f) && LastSeen(front, fields, f).Some? && LastSeen(front, fields, f) != s.place[f]
  }

  /** Every change of `f` the scrapes show, oldest first. */
  function ChangesSeen(checks: seq<Check>, fields: seq<string>, f: string): seq<Change> {
    if checks == [] then []
    else
      var front, s := checks[..|checks| - 1], checks[|checks| - 1].scrape;
      if Moves(checks, fields, f) then
        ChangesSeen(front, fields, f) + [Change(LastSeen(front, fields, f).value, s.place[f].value)]
      else ChangesSeen(front, fields, f)
  }

  /** The changes of `f` a log records, oldest first. */
  function ChangesLogged(log: seq<Entry>, f: string): seq<Change> {
    if log == [] then []
    else if f in log[|log| - 1].changes then ChangesLogged(log[..|log| - 1], f) + [log[|log| - 1].changes[f]]
    else ChangesLogged(log[..|log| - 1], f)
  }

  /** The log the checks would have left had it not been cut to the newest entries. */
  function FullLog(m: Monitor, checks: seq<Check>): seq<Entry> {
    if checks == [] then []
    else
      var front, last := checks[..|checks| - 1], checks[|checks| - 1];
      var before := AfterChecks(m, front);
      var snapshot := Observe(last.scrape.place, Tracked(before));
      var changes := Diff(before.lastSnapshot, snapshot);
      if !Fails(last.scrape) && (before.lastSnapshot.None? || changes != map[]) then
        FullLog(m, front) + [Entry(last.at, changes, snapshot, before.lastSnapshot.None?)]
      else FullLog(m, front)
  }

  ghost predicate JustCreated(m: Monitor) {
    m.lastSnapshot.None? && m.history == [] && m.checkCount == 0 && m.changeCount == 0
  }

  // ---- What the record tells ---------------------------------------------------------

  lemma {:induction false} FieldsStay(m: Monitor, checks: seq<Check>)
    ensures Tracked(AfterChecks(m, checks)) == Tracked(m)
  {
    if checks != [] {
      FieldsStay(m, checks[..|checks| - 1]);
    }
  }

  /** What the stored snapshot holds for a field. */
  function Stored(m: Monitor, f: string): Option<Value> {
    if m.lastSnapshot.Some? && f in m.lastSnapshot.value then Some(m.lastSnapshot.value[f]) else None
  }

  /** The stored snapshot is the most recent observation of every tracked field, and of nothing else. */
  lemma {:induction false} SnapshotIsLastSeen(m: Monitor, checks: seq<Check>)
    requires JustCreated(m)
    ensures var after := AfterChecks(m, checks);
      && (after.lastSnapshot.None? <==> Successes(checks) == 0)
      && (forall f :: LastSeen(checks, Tracked(m), f) == Stored(after, f))
  {
    if checks != [] {
      var front := checks[..|checks| - 1];
      SnapshotIsLastSeen(m, front);
      FieldsStay(m, front);
    }
  }

  /** The changes of the last check, a failed one having none. */
  function LastChanges(m: Monitor, checks: seq<Check>): map<string, Change>
    requires checks != []
  {
    var before, s := AfterChecks(m, checks[..|checks| - 1]), checks[|checks| - 1].scrape;
    if Fails(s) then map[] else Diff(before.lastSnapshot, Observe(s.place, Tracked(before)))
  }

  lemma StoredIsLastSeen(m: Monitor, checks: seq<Check>, f: string)
    requires JustCreated(m)
    ensures LastSeen(checks, Tracked(m), f) == Stored(AfterChecks(m, checks), f)
  {
    SnapshotIsLastSeen(m, checks);
  }

  lemma LastChangesAreMoves(m: Monitor, checks: seq<Check>, f: string)
    requires JustCreated(m) && checks != []
    ensures f in LastChanges(m, checks) <==> Moves(checks, Tracked(m), f)
    ensures Moves(checks, Tracked(m), f) ==>
      var before := LastSeen(checks[..|checks| - 1], Tracked(m), f);
      LastChanges(m, checks)[f] == Change(before.value, checks[|checks| - 1].scrape.place[f].value)
  {
    var front := checks[..|checks| - 1];
    StoredIsLastSeen(m, front, f);
    FieldsStay(m, front);
  }

  lemma LoggedByLastCheck(m: Monitor, checks: seq<Check>, f: string)
    requires checks != []
    ensures var earlier, changes := ChangesLogged(FullLog(m, checks[..|checks| - 1]), f), LastChanges(m, checks);
      ChangesLogged(FullLog(m, checks), f) == earlier + if f in changes then [changes[f]] else []
  {
    var log, shorter := FullLog(m, checks), FullLog(m, checks[..|checks| - 1]);
    if |log| > |shorter| {
      assert log[..|log| - 1] == shorter;
    }
  }

  /** The log records exactly the changes the scrapes show, field by field. */
  lemma {:induction false} LogIsWhatWasSeen(m: Monitor, checks: seq<Check>, f: string)
    requires JustCreated(m)
    ensures ChangesLogged(FullLog(m, checks), f) == ChangesSeen(checks, Tracked(m), f)
  {
    if checks != [] {
      LogIsWhatWasSeen(m, checks[..|checks| - 1], f);
      LoggedByLastCheck(m, checks, f);
      LastChangesAreMoves(m, checks, f);
    }
  }

  /** Changes of one field chain: each starts from the value the previous one ended with. */
  ghost predicate Chained(changes: seq<Change>) {
    && (forall i :: 0 <= i < |changes| ==> changes[i].before != changes[i].after)
    && (forall i, j :: 0 <= i && j == i + 1 < |changes| ==> changes[i].after == changes[j].before)
  }

  lemma {:induction false} SeenChangesChain(checks: seq<Check>, fields: seq<string>, f: string)
    ensures var changes := ChangesSeen(checks, fields, f);
      && Chained(changes)
      && (changes != [] ==> LastSeen(checks, fields, f) == Some(changes[|changes| - 1].after))
  {
    if checks != [] {
      SeenChangesChain(checks[..|checks| - 1], fields, f);
    }
  }

  /** In the log, successive changes of a field chain and the last one ends in the stored snapshot. */
  lemma LoggedChangesChain(m: Monitor, checks: seq<Check>, f: string)
    requires JustCreated(m)
    ensures var changes, after := ChangesLogged(FullLog(m, checks), f), AfterChecks(m, checks);
      && Chained(changes)
      && (changes != [] ==>
        && after.lastSnapshot.Some? && f in after.lastSnapshot.value
        && after.lastSnapshot.value[f] == changes[|changes| - 1].after)
  {
    LogIsWhatWasSeen(m, checks, f);
    SeenChangesChain(checks, Tracked(m), f);
    SnapshotIsLastSeen(m, checks);
  }

  lemma TrimTwice<T>(log: seq<T>, x: T, n: nat)
    ensures Last(Last(log, n) + [x], n) == Last(log + [x], n)
  {
  }

  /** The stored history is the newest part of the log. */
  lemma {:induction false} HistoryIsNewest(m: Monitor, checks: seq<Check>)
    requires JustCreated(m)
    ensures AfterChecks(m, checks).history == Last(FullLog(m, checks), MAX_HISTORY_ENTRIES)
    ensures var log := FullLog(m, checks);
      AfterChecks(m, checks).history == if |log| <= 200 then log else log[|log| - 200..]
  {
    if checks != [] {
      var front, last := checks[..|checks| - 1], checks[|checks| - 1];
      HistoryIsNewest(m, front);
      var before := AfterChecks(m, front);
      var snapshot := Observe(last.scrape.place, Tracked(before));
      var entry := Entry(last.at, Diff(before.lastSnapshot, snapshot), snapshot, before.lastSnapshot.None?);
      TrimTwice(FullLog(m, front), entry, MAX_HISTORY_ENTRIES);
    }
  }

  lemma {:induction false} FullLogCounts(m: Monitor, checks: seq<Check>)
    requires JustCreated(m)
    ensures var after := AfterChecks(m, checks);
      && after.checkCount == |checks|
      && (after.lastSnapshot.None? <==> Successes(checks) == 0)
      && (after.lastSnapshot.None? ==> after.changeCount == 0)
      && |FullLog(m, checks)| == if Successes(checks) == 0 then 0 else 1 + after.changeCount
  {
    if checks != [] {
      FullLogCounts(m, checks[..|checks| - 1]);
    }
  }

  /** The first entry of the log is the one baseline; every other entry records a change. */
  lemma {:induction false} OneBaseline(m: Monitor, checks: seq<Check>)
    requires JustCreated(m)
    ensures var log := FullLog(m, checks);
      forall i :: 0 <= i < |log| ==> (log[i].baseline <==> i == 0) && (log[i].changes == map[] <==> i == 0)
  {
    if checks != [] {
      var front := checks[..|checks| - 1];
      OneBaseline(m, front);
      FullLogCounts(m, front);
    }
  }

  /**
   * After the first success the history holds the baseline and the changes, up to the bound; the record dates
   * from the last check.
   */
  lemma HistoryLength(m: Monitor, checks: seq<Check>)
    requires JustCreated(m)
    ensures var after := AfterChecks(m, checks);
      && after.checkCount == |checks|
      && (checks != [] ==>
        && after.lastChecked == Some(checks[|checks| - 1].at)
        && (after.lastError.Some? <==> Fails(checks[|checks| - 1].scrape)))
      && |after.history| == if Successes(checks) == 0 then 0 else Min(200, 1 + after.changeCount)
  {
    HistoryIsNewest(m, checks);
    FullLogCounts(m, checks);
  }
}

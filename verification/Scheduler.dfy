/**
 * The scheduler's tick over all indexed owners, and whether monitors live to see it.
 *
 * The cutoff is fixed when a tick begins; the clock runs on from there, so every listing and every
 * check happens at an instant of its own, and a monitor may expire before its turn comes.
 */
module Scheduler {
  import opened Prelude
  import opened RecordStore
  import opened MonitorLog
  import opened Monitors

  type Id = (string, string)

  /** The instants at which monitors were checked. */
  type Visits = map<Id, real>

  /** The instants of the successive store operations of a tick. */
  type Clock = nat -> real

  ghost predicate Ticking(clock: Clock) {
    forall i, j :: 0 <= i <= j ==> clock(i) <= clock(j)
  }

  // ---- What a tick does ---------------------------------------------------------------

  function CheckedSlot(slot: Slot<Monitor>, s: Scrape, now: real): Slot<Monitor> {
    Slot(now + TTL, slot.record.(data := AfterCheck(slot.record.data, s, now), updatedAt := now))
  }

  /** The table with exactly the visited monitors checked, each at its instant. */
  function Served(table: Table<Monitor>, at: Visits, fetch: Lookup): Table<Monitor> {
    map c | c in table :: if c in at then CheckedSlot(table[c], fetch(c.0, c.1), at[c]) else table[c]
  }

  ghost predicate Named(table: Table<Monitor>) {
    forall c :: c in table ==> table[c].record.owner == c.0 && table[c].record.id == c.1
  }

  /** At instant `t` the monitors still alive are those of `start`, the visited ones checked. */
  ghost predicate Shows(table: Table<Monitor>, start: Table<Monitor>, at: Visits, fetch: Lookup, t: real) {
    LiveOnly(table, t) == LiveOnly(Served(start, at, fetch), t)
  }

  /** Every visited monitor was due at the cutoff and alive when its turn came, between the cutoff and `t`. */
  ghost predicate Visited(start: Table<Monitor>, at: Visits, cutoff: real, t: real) {
    forall c :: c in at ==>
      && c in start && Due(start[c].record.data, cutoff)
      && cutoff <= at[c] <= t && at[c] <= start[c].expires
  }

  lemma ShowsLater(table: Table<Monitor>, start: Table<Monitor>, at: Visits, fetch: Lookup, t: real, later: real)
    requires Shows(table, start, at, fetch, t) && t <= later
    ensures Shows(table, start, at, fetch, later)
  {
    var served := Served(start, at, fetch);
    forall c ensures c in LiveOnly(table, later) <==> c in LiveOnly(served, later) {
      assert c in LiveOnly(table, t) <==> c in LiveOnly(served, t);
    }
  }

  lemma ShowsSwept(table: Table<Monitor>, start: Table<Monitor>, at: Visits, fetch: Lookup, t: real)
    requires Shows(table, start, at, fetch, t)
    ensures Shows(LiveOnly(table, t), start, at, fetch, t)
  {
    assert LiveOnly(LiveOnly(table, t), t) == LiveOnly(table, t);
  }

  /** Checking one more monitor, or finding it expired. */
  lemma ShowsOneMore(w: World, start: Table<Monitor>, at: Visits, fetch: Lookup, c: Id, t: real)
    requires Shows(w.table, start, at, fetch, t) && Named(start) && c in start && c !in at
    ensures Shows(Checked(w, c.0, c.1, fetch(c.0, c.1), t).table, start,
                  if t <= start[c].expires then at[c := t] else at, fetch, t)
  {
    assert c == (c.0, c.1);
    assert c in LiveOnly(w.table, t) <==> c in LiveOnly(Served(start, at, fetch), t);
    if t <= start[c].expires {
      OneMoreServed(w.table, start, at, fetch, c, t);
    } else {
      assert LiveOnly(AfterRead(w.table, c.0, c.1, t), t) == LiveOnly(w.table, t);
    }
  }

  lemma OneMoreServed(table: Table<Monitor>, start: Table<Monitor>, at: Visits, fetch: Lookup, c: Id, t: real)
    requires Shows(table, start, at, fetch, t) && Named(start) && c in start && c !in at && t <= start[c].expires
    ensures Alive(table, c.0, c.1, t) == Some(start[c].record)
    ensures var data := AfterCheck(start[c].record.data, fetch(c.0, c.1), t);
      Shows(PutInto(table, c.0, c.1, data, t, TTL), start, at[c := t], fetch, t)
  {
    assert c == (c.0, c.1);
    assert c in LiveOnly(Served(start, at, fetch), t) && LiveOnly(table, t)[c] == start[c];
    var after := PutInto(table, c.0, c.1, AfterCheck(start[c].record.data, fetch(c.0, c.1), t), t, TTL);
    var served := Served(start, at[c := t], fetch);
    assert after[c] == served[c];
    forall d | d != c
      ensures d in LiveOnly(after, t) <==> d in LiveOnly(served, t)
      ensures d in LiveOnly(after, t) ==> after[d] == served[d]
    {
      assert d in LiveOnly(table, t) <==> d in LiveOnly(Served(start, at, fetch), t);
      assert d in LiveOnly(table, t) ==> LiveOnly(table, t)[d] == LiveOnly(Served(start, at, fetch), t)[d];
    }
  }

  // ---- One owner's turn -------------------------------------------------------------------

  /** The service as the tick has left it: Safe if it was, showing the visits made so far. */
  ghost predicate Progress(w: World, start: World, at: Visits, fetch: Lookup, cutoff: real, t: real) {
    && Shows(w.table, start.table, at, fetch, t) && Visited(start.table, at, cutoff, t)
    && (Safe(start, cutoff) ==> Safe(w, t))
  }

  lemma ProgressLater(w: World, start: World, at: Visits, fetch: Lookup, cutoff: real, t: real, later: real)
    requires Progress(w, start, at, fetch, cutoff, t) && t <= later
    ensures Progress(w, start, at, fetch, cutoff, later)
  {
    ShowsLater(w.table, start.table, at, fetch, t, later);
    if Safe(start, cutoff) {
      LaterIsSafe(w, t, later);
    }
  }

  lemma SweepKeepsSafe(w: World, now: real)
    requires Safe(w, now)
    ensures Safe(World(LiveOnly(w.table, now), w.index), now) && Safe(World(w.table, LiveOnly(w.index, now)), now)
  {
  }

  /** Some of the ids have been visited, and all of those that live on past `t`. */
  ghost predicate AllVisited(start: Table<Monitor>, at: Visits, owner: string, ids: seq<string>, t: real) {
    forall id :: id in ids && (owner, id) in start && t <= start[(owner, id)].expires ==> (owner, id) in at
  }

  lemma VisitedOneMore(start: Table<Monitor>, at: Visits, c: Id, cutoff: real, now: real)
    requires Visited(start, at, cutoff, now) && cutoff <= now && c in start && Due(start[c].record.data, cutoff)
    ensures Visited(start, if now <= start[c].expires then at[c := now] else at, cutoff, now)
  {
  }

  lemma OneMoreVisit(w: World, start: World, at: Visits, fetch: Lookup, c: Id, cutoff: real, now: real)
    requires Progress(w, start, at, fetch, cutoff, now) && cutoff <= now
    requires Named(start.table) && c in start.table && c !in at && Due(start.table[c].record.data, cutoff)
    ensures Progress(Checked(w, c.0, c.1, fetch(c.0, c.1), now), start,
                     if now <= start.table[c].expires then at[c := now] else at, fetch, cutoff, now)
  {
    ShowsOneMore(w, start.table, at, fetch, c, now);
    VisitedOneMore(start.table, at, c, cutoff, now);
    if Safe(start, cutoff) {
      DoKeepsSafe(w, Op.Check(c.0, c.1, fetch(c.0, c.1)), now);
    }
  }

  method CheckOne(svc: Service, owner: string, id: string, fetch: Lookup, now: real, ghost start: World,
                  at: Visits, ghost cutoff: real)
    returns (visits: Visits)
    requires svc.Valid() && ColonFree(owner) && cutoff <= now
    requires Progress(World(svc.table, svc.index), start, at, fetch, cutoff, now)
    requires Named(start.table) && (owner, id) in start.table && (owner, id) !in at
    requires Due(start.table[(owner, id)].record.data, cutoff)
    modifies svc, svc.monitors, svc.owners
    ensures svc.Valid() && Progress(World(svc.table, svc.index), start, visits, fetch, cutoff, now)
    ensures visits == if now <= start.table[(owner, id)].expires then at[(owner, id) := now] else at
  {
    OneMoreVisit(World(svc.table, svc.index), start, at, fetch, (owner, id), cutoff, now);
    LiveAsShown(svc.table, start.table, at, fetch, (owner, id), now);
    var r := svc.CheckMonitor(owner, id, fetch, now);
    visits := if r.Ok? then at[(owner, id) := now] else at;
  }

  lemma LiveAsShown(table: Table<Monitor>, start: Table<Monitor>, at: Visits, fetch: Lookup, c: Id, t: real)
    requires Shows(table, start, at, fetch, t) && Named(start) && c in start && c !in at
    ensures Alive(table, c.0, c.1, t).Some? <==> t <= start[c].expires
  {
    assert c == (c.0, c.1);
    assert c in LiveOnly(table, t) <==> c in LiveOnly(Served(start, at, fetch), t);
  }

  /** Due monitors of one owner, none of them visited yet. */
  ghost predicate Unvisited(start: Table<Monitor>, at: Visits, owner: string, ids: seq<string>, cutoff: real) {
    && (forall i, j :: 0 <= i < j < |ids| ==> ids[i] != ids[j])
    && (forall i :: 0 <= i < |ids| ==>
          && (owner, ids[i]) in start && (owner, ids[i]) !in at
          && Due(start[(owner, ids[i])].record.data, cutoff))
  }

  /** `visits` adds to `at` only ids of this owner. */
  ghost predicate Extends(visits: Visits, at: Visits, owner: string, ids: seq<string>) {
    && (forall c :: c in at ==> c in visits && visits[c] == at[c])
    && (forall c :: c in visits && c !in at ==> c.0 == owner && c.1 in ids)
  }

  method CheckEach(svc: Service, owner: string, ids: seq<string>, fetch: Lookup, clock: Clock, n: nat,
                   ghost start: World, at: Visits, ghost cutoff: real)
    returns (visits: Visits, next: nat)
    requires svc.Valid() && ColonFree(owner) && Ticking(clock) && cutoff <= clock(n)
    requires Progress(World(svc.table, svc.index), start, at, fetch, cutoff, clock(n))
    requires Named(start.table) && Unvisited(start.table, at, owner, ids, cutoff)
    modifies svc, svc.monitors, svc.owners
    ensures n <= next && svc.Valid() && Progress(World(svc.table, svc.index), start, visits, fetch, cutoff, clock(next))
    ensures Extends(visits, at, owner, ids) && AllVisited(start.table, visits, owner, ids, clock(next))
  {
    visits, next := at, n;
    for i := 0 to |ids|
      invariant n <= next && svc.Valid()
      invariant Progress(World(svc.table, svc.index), start, visits, fetch, cutoff, clock(next))
      invariant Extends(visits, at, owner, ids[..i])
      invariant AllVisited(start.table, visits, owner, ids[..i], clock(next))
    {
      ProgressLater(World(svc.table, svc.index), start, visits, fetch, cutoff, clock(next), clock(next + 1));
      NotYet(visits, at, owner, ids, i);
      ghost var before := visits;
      next := next + 1;
      visits := CheckOne(svc, owner, ids[i], fetch, clock(next), start, visits, cutoff);
      OneFurther(start.table, before, visits, at, owner, ids, i, clock(next - 1), clock(next));
    }
    assert ids[..|ids|] == ids;
  }

  lemma NotYet(visits: Visits, at: Visits, owner: string, ids: seq<string>, i: nat)
    requires i < |ids| && Extends(visits, at, owner, ids[..i]) && (owner, ids[i]) !in at
    requires forall j :: 0 <= j < i ==> ids[j] != ids[i]
    ensures (owner, ids[i]) !in visits
  {
  }

  lemma OneFurther(start: Table<Monitor>, before: Visits, visits: Visits, at: Visits, owner: string, ids: seq<string>,
                   i: nat, t: real, now: real)
    requires i < |ids| && t <= now && (owner, ids[i]) in start
    requires Extends(before, at, owner, ids[..i]) && AllVisited(start, before, owner, ids[..i], t)
    requires (owner, ids[i]) !in before
    requires visits == if now <= start[(owner, ids[i])].expires then before[(owner, ids[i]) := now] else before
    ensures Extends(visits, at, owner, ids[..i + 1]) && AllVisited(start, visits, owner, ids[..i + 1], now)
  {
    assert ids[..i + 1] == ids[..i] + [ids[i]];
  }

  /** Checks the due monitors of one owner, as far as one listing of at most 500 shows them. */
  method CheckOwner(svc: Service, owner: string, fetch: Lookup, clock: Clock, n: nat,
                    ghost start: World, at: Visits, cutoff: real)
    returns (visits: Visits, next: nat)
    requires svc.Valid() && ColonFree(owner) && Ticking(clock) && cutoff <= clock(n)
    requires Progress(World(svc.table, svc.index), start, at, fetch, cutoff, clock(n))
    requires Named(start.table) && forall c :: c in at ==> c.0 != owner
    modifies svc, svc.monitors, svc.owners
    ensures n <= next && svc.Valid() && Progress(World(svc.table, svc.index), start, visits, fetch, cutoff, clock(next))
    ensures forall c :: c in at ==> c in visits && visits[c] == at[c]
    ensures forall c :: c in visits && c !in at ==> c.0 == owner
    ensures FitsListing(start, owner, cutoff) ==>
      forall id :: id in DueOf(start.table, owner, cutoff, clock(next)) ==> (owner, id) in visits
  {
    next := n + 1;
    ghost var w := World(svc.table, svc.index);
    ProgressLater(w, start, at, fetch, cutoff, clock(n), clock(next));
    DueAsShown(svc.table, start.table, at, fetch, owner, cutoff, clock(next));
    var due := svc.ListDue(owner, cutoff, clock(next));
    var ids := seq(|due|, i requires 0 <= i < |due| => due[i].id);
    SweptProgress(w, start, at, fetch, cutoff, clock(next));
    ListedAreUnvisited(start.table, at, owner, due, ids, cutoff, clock(next));
    ghost var listed := next;
    visits, next := CheckEach(svc, owner, ids, fetch, clock, next, start, at, cutoff);
    AllDueVisited(start.table, visits, owner, due, ids, cutoff, clock(listed), clock(next));
  }

  lemma SweptProgress(w: World, start: World, at: Visits, fetch: Lookup, cutoff: real, t: real)
    requires Progress(w, start, at, fetch, cutoff, t)
    ensures Progress(World(LiveOnly(w.table, t), w.index), start, at, fetch, cutoff, t)
  {
    ShowsSwept(w.table, start.table, at, fetch, t);
    if Safe(start, cutoff) {
      SweepKeepsSafe(w, t);
    }
  }

  /** What is due of an owner not visited yet is what was due at the start, less what has expired. */
  lemma DueAsShown(table: Table<Monitor>, start: Table<Monitor>, at: Visits, fetch: Lookup, owner: string,
                   cutoff: real, t: real)
    requires Shows(table, start, at, fetch, t) && forall c :: c in at ==> c.0 != owner
    ensures DueOf(table, owner, cutoff, t) == DueOf(start, owner, cutoff, t)
    ensures cutoff <= t ==> DueOf(start, owner, cutoff, t) <= DueOf(start, owner, cutoff, cutoff)
    ensures cutoff <= t ==> |DueOf(start, owner, cutoff, t)| <= |DueOf(start, owner, cutoff, cutoff)|
  {
    var served := Served(start, at, fetch);
    forall id ensures id in DueOf(table, owner, cutoff, t) <==> id in DueOf(start, owner, cutoff, t) {
      assert (owner, id) in LiveOnly(table, t) <==> (owner, id) in LiveOnly(served, t);
      assert (owner, id) in LiveOnly(table, t) ==> LiveOnly(table, t)[(owner, id)] == LiveOnly(served, t)[(owner, id)];
    }
    if cutoff <= t {
      SubsetIsNoLarger(DueOf(start, owner, cutoff, t), DueOf(start, owner, cutoff, cutoff));
    }
  }

  lemma ListedAreUnvisited(start: Table<Monitor>, at: Visits, owner: string, due: seq<Record<Monitor>>,
                           ids: seq<string>, cutoff: real, t: real)
    requires UniqueIds(due) && Ids(due) <= DueOf(start, owner, cutoff, t) && forall c :: c in at ==> c.0 != owner
    requires |ids| == |due| && forall i :: 0 <= i < |ids| ==> ids[i] == due[i].id
    ensures Unvisited(start, at, owner, ids, cutoff)
  {
    forall i | 0 <= i < |ids| ensures ids[i] in DueOf(start, owner, cutoff, t) {
      assert due[i].id in Ids(due);
    }
  }

  lemma AllDueVisited(start: Table<Monitor>, visits: Visits, owner: string, due: seq<Record<Monitor>>, ids: seq<string>,
                      cutoff: real, listed: real, t: real)
    requires AllVisited(start, visits, owner, ids, t) && listed <= t
    requires |ids| == |due| && forall i :: 0 <= i < |ids| ==> ids[i] == due[i].id
    ensures Ids(due) == DueOf(start, owner, cutoff, listed) ==>
      forall id :: id in DueOf(start, owner, cutoff, t) ==> (owner, id) in visits
  {
    if Ids(due) == DueOf(start, owner, cutoff, listed) {
      forall id | id in DueOf(start, owner, cutoff, t) ensures (owner, id) in visits {
        assert id in Ids(due);
        var i :| 0 <= i < |due| && due[i].id == id;
        assert ids[i] == id;
      }
    }
  }

  // ---- All owners -----------------------------------------------------------------------

  /** The index and every owner's due monitors fit the listing limits. */
  predicate WithinCaps(w: World, cutoff: real) {
    && |IndexedOwners(w.index, cutoff)| <= MAX_OWNERS
    && forall c :: c in w.table ==> FitsListing(w, c.0, cutoff)
  }

  /** Monitor `c` was due at the cutoff when the tick began, and lives on past `t`. */
  predicate Awaits(start: World, c: Id, cutoff: real, t: real) {
    c in start.table && Due(start.table[c].record.data, cutoff) && t <= start.table[c].expires
  }

  predicate FitsListing(start: World, owner: string, cutoff: real) {
    |DueOf(start.table, owner, cutoff, cutoff)| <= MAX_DUE
  }

  /** Every monitor of these owners that awaits its check has been visited, as far as the listing limit allows. */
  ghost predicate TurnsDone(start: World, visits: Visits, turns: seq<string>, cutoff: real, t: real) {
    forall c :: Awaits(start, c, cutoff, t) && c.0 in turns && FitsListing(start, c.0, cutoff) ==> c in visits
  }

  /**
   * What a tick leaves behind: each check met a monitor that was due and still alive, at an instant of its own;
   * at the end the store shows those checks and no other change; and within the limits no due monitor was
   * passed over unless it expired before the tick was done.
   */
  ghost predicate Ticked(start: World, after: World, visits: Visits, fetch: Lookup, cutoff: real, end: real) {
    && cutoff <= end && Progress(after, start, visits, fetch, cutoff, end)
    && (Safe(start, cutoff) && WithinCaps(start, cutoff) ==>
          forall c :: Awaits(start, c, cutoff, end) ==> c in visits)
  }

  lemma TickDone(start: World, after: World, visits: Visits, known: seq<string>, fetch: Lookup,
                 cutoff: real, begun: real, end: real)
    requires Progress(after, start, visits, fetch, cutoff, end) && cutoff <= begun <= end
    requires TurnsDone(start, visits, known, cutoff, end)
    requires |IndexedOwners(start.index, begun)| <= MAX_OWNERS ==>
      forall o :: o in IndexedOwners(start.index, begun) ==> o in known
    ensures Ticked(start, after, visits, fetch, cutoff, end)
  {
    assert IndexedOwners(start.index, begun) <= IndexedOwners(start.index, cutoff);
    SubsetIsNoLarger(IndexedOwners(start.index, begun), IndexedOwners(start.index, cutoff));
    if Safe(start, cutoff) && WithinCaps(start, cutoff) {
      forall c | Awaits(start, c, cutoff, end) ensures c in visits {
        assert (INDEX_OWNER, c.0) in start.index;
        assert c.0 in IndexedOwners(start.index, begun);
      }
    }
  }

  lemma TickBegins(start: World, index: Table<string>, fetch: Lookup, cutoff: real, begun: real)
    requires cutoff <= begun && index == LiveOnly(start.index, begun)
    ensures Progress(World(start.table, index), start, map[], fetch, cutoff, begun)
  {
    assert Served(start.table, map[], fetch) == start.table;
    if Safe(start, cutoff) {
      LaterIsSafe(start, cutoff, begun);
      SweepKeepsSafe(start, begun);
    }
  }

  /** Checks the due monitors of every indexed owner; the clock begins no earlier than the cutoff. */
  method RunDueChecks(svc: Service, fetch: Lookup, cutoff: real, clock: Clock) returns (visits: Visits, end: nat)
    requires svc.Valid() && Ticking(clock) && cutoff <= clock(0)
    modifies svc, svc.monitors, svc.owners
    ensures svc.Valid()
    ensures Ticked(old(World(svc.table, svc.index)), World(svc.table, svc.index), visits, fetch, cutoff, clock(end))
  {
    ghost var start := World(svc.table, svc.index);
    assert Named(start.table);
    var known := svc.KnownOwners(clock(0));
    TickBegins(start, svc.index, fetch, cutoff, clock(0));
    visits, end := TakeTurns(svc, known, fetch, clock, start, cutoff);
    TickDone(start, World(svc.table, svc.index), visits, known, fetch, cutoff, clock(0), clock(end));
  }

  method TakeTurns(svc: Service, known: seq<string>, fetch: Lookup, clock: Clock, ghost start: World, cutoff: real)
    returns (visits: Visits, next: nat)
    requires svc.Valid() && Ticking(clock) && cutoff <= clock(0) && Named(start.table)
    requires forall o :: o in known ==> ColonFree(o)
    requires forall i, j :: 0 <= i < j < |known| ==> known[i] != known[j]
    requires Progress(World(svc.table, svc.index), start, map[], fetch, cutoff, clock(0))
    modifies svc, svc.monitors, svc.owners
    ensures svc.Valid() && Progress(World(svc.table, svc.index), start, visits, fetch, cutoff, clock(next))
    ensures TurnsDone(start, visits, known, cutoff, clock(next))
  {
    visits, next := map[], 0;
    for i := 0 to |known|
      invariant svc.Valid() && Progress(World(svc.table, svc.index), start, visits, fetch, cutoff, clock(next))
      invariant forall c :: c in visits ==> c.0 in known[..i]
      invariant TurnsDone(start, visits, known[..i], cutoff, clock(next))
    {
      ghost var before, began := visits, next;
      visits, next := CheckOwner(svc, known[i], fetch, clock, next, start, visits, cutoff);
      TurnDone(start, before, visits, known, i, cutoff, clock(began), clock(next));
    }
    assert known[..|known|] == known;
  }

  /** One more owner has had a turn. */
  lemma TurnDone(start: World, before: Visits, visits: Visits, known: seq<string>, i: nat,
                 cutoff: real, t: real, later: real)
    requires i < |known| && t <= later && TurnsDone(start, before, known[..i], cutoff, t)
    requires forall c :: c in before ==> c in visits && c.0 in known[..i]
    requires forall c :: c in visits && c !in before ==> c.0 == known[i]
    requires FitsListing(start, known[i], cutoff) ==>
      forall id :: id in DueOf(start.table, known[i], cutoff, later) ==> (known[i], id) in visits
    ensures TurnsDone(start, visits, known[..i + 1], cutoff, later)
    ensures forall c :: c in visits ==> c.0 in known[..i + 1]
  {
    assert known[..i + 1] == known[..i] + [known[i]];
    forall c | Awaits(start, c, cutoff, later) && c.0 == known[i] && FitsListing(start, c.0, cutoff)
      ensures c in visits
    {
      assert c.1 in DueOf(start.table, known[i], cutoff, later) && c == (known[i], c.1);
    }
  }

  /** Within the limits a tick leaves no live monitor due at its cutoff. */
  lemma NoneLeftDue(start: World, after: World, visits: Visits, fetch: Lookup, cutoff: real, end: real, c: Id)
    requires Ticked(start, after, visits, fetch, cutoff, end) && Safe(start, cutoff) && WithinCaps(start, cutoff)
    requires c in after.table && end <= after.table[c].expires
    ensures !Due(after.table[c].record.data, cutoff)
  {
    var served := Served(start.table, visits, fetch);
    assert c in LiveOnly(after.table, end) && c in LiveOnly(served, end);
    assert after.table[c] == served[c];
  }

  // ---- Runs with ticks ---------------------------------------------------------------------

  /** A tick that has run: its cutoff, the instant at which it was done, and its checks. */
  datatype Tick = Tick(cutoff: real, end: real, visits: Visits, fetch: Lookup)

  ghost predicate Ticks(w: World, t: Tick, after: World) {
    Ticked(w, after, t.visits, t.fetch, t.cutoff, t.end)
  }

  datatype Event = Operation(op: Op, at: real) | Round(tick: Tick)

  function Begins(e: Event): real {
    if e.Operation? then e.at else e.tick.cutoff
  }

  function Ends(e: Event): real {
    if e.Operation? then e.at else e.tick.end
  }

  ghost predicate Moves(w: World, e: Event, after: World) {
    match e
    case Operation(op, at) => after == Do(w, op, at)
    case Round(tick) => Ticks(w, tick, after)
  }

  /** A run of creations, checks, deletions and ticks, one after the other, from the empty service. */
  ghost predicate IsRun(worlds: seq<World>, events: seq<Event>) {
    && |worlds| == |events| + 1 && worlds[0] == World(map[], map[])
    && (forall i :: 0 <= i < |events| ==> Moves(worlds[i], events[i], worlds[i + 1]))
    && (forall i :: 0 <= i < |events| ==> Begins(events[i]) <= Ends(events[i]))
    && (forall i, j :: 0 <= i < j < |events| ==> Ends(events[i]) <= Begins(events[j]))
  }

  lemma MoveKeepsSafe(w: World, e: Event, after: World)
    requires Safe(w, Begins(e)) && Moves(w, e, after)
    ensures Safe(after, Ends(e))
  {
    if e.Operation? {
      DoKeepsSafe(w, e.op, e.at);
    }
  }

  /** Whatever is created, checked, deleted and ticked, the index keeps covering the monitors. */
  lemma {:induction false} RunWithTicksIsSafe(worlds: seq<World>, events: seq<Event>, now: real)
    requires IsRun(worlds, events) && (events != [] ==> Ends(events[|events| - 1]) <= now)
    ensures Safe(worlds[|events|], now)
    decreases |events|
  {
    if events != [] {
      var n := |events| - 1;
      RunWithTicksIsSafe(worlds[..n + 1], events[..n], Begins(events[n]));
      MoveKeepsSafe(worlds[n], events[n], worlds[n + 1]);
      LaterIsSafe(worlds[n + 1], Ends(events[n]), now);
    }
  }

  /** After any such run every live monitor's owner is indexed for at least as long as the monitor lives. */
  lemma NoOwnerIsLost(worlds: seq<World>, events: seq<Event>, now: real, owner: string, id: string)
    requires IsRun(worlds, events) && (events != [] ==> Ends(events[|events| - 1]) <= now)
    requires Alive(worlds[|events|].table, owner, id, now).Some?
    ensures var w := worlds[|events|];
      (INDEX_OWNER, owner) in w.index && w.table[(owner, id)].expires <= w.index[(INDEX_OWNER, owner)].expires
  {
    RunWithTicksIsSafe(worlds, events, now);
  }

  // ---- Survival ---------------------------------------------------------------------------

  /** When a tick comes to a monitor, or is done without having come to it. */
  function VisitAt(t: Tick, c: Id): real {
    if c in t.visits then t.visits[c] else t.end
  }

  predicate Misses(t: Tick, c: Id, slot: Slot<Monitor>) {
    Due(slot.record.data, t.cutoff) && slot.expires < VisitAt(t, c)
  }

  /** A tick within the limits, on the monitors alone: what is due is checked unless it has expired by then. */
  function TickTable(table: Table<Monitor>, t: Tick): Table<Monitor> {
    map c | c in table && !Misses(t, c, table[c]) ::
      if Due(table[c].record.data, t.cutoff) then CheckedSlot(table[c], t.fetch(c.0, c.1), VisitAt(t, c)) else table[c]
  }

  function AfterTicks(table: Table<Monitor>, ticks: seq<Tick>): Table<Monitor> {
    if ticks == [] then table else AfterTicks(TickTable(table, ticks[0]), ticks[1..])
  }

  /** No due monitor that outlives the tick is passed over. */
  ghost predicate Complete(table: Table<Monitor>, t: Tick) {
    forall c :: c in table && Due(table[c].record.data, t.cutoff) && t.end <= table[c].expires ==> c in t.visits
  }

  lemma ServedIsTickTable(table: Table<Monitor>, t: Tick)
    requires Visited(table, t.visits, t.cutoff, t.end) && Complete(table, t)
    ensures LiveOnly(Served(table, t.visits, t.fetch), t.end) == LiveOnly(TickTable(table, t), t.end)
  {
  }

  /** The tick of the service is that tick: at its end the same monitors are alive, in the same state. */
  lemma TickIsTickTable(w: World, t: Tick, after: World)
    requires Ticks(w, t, after) && Safe(w, t.cutoff) && WithinCaps(w, t.cutoff)
    ensures LiveOnly(after.table, t.end) == LiveOnly(TickTable(w.table, t), t.end)
  {
    assert Complete(w.table, t) by {
      forall c | c in w.table && Due(w.table[c].record.data, t.cutoff) && t.end <= w.table[c].expires
        ensures c in t.visits
      {
        assert Awaits(w, c, t.cutoff, t.end);
      }
    }
    ServedIsTickTable(w.table, t);
  }

  lemma TickRespectsLife(a: Table<Monitor>, b: Table<Monitor>, begun: real, t: Tick)
    requires LiveOnly(a, begun) == LiveOnly(b, begun) && begun <= t.cutoff <= t.end
    requires forall c :: c in t.visits ==> t.cutoff <= t.visits[c]
    ensures LiveOnly(TickTable(a, t), t.end) == LiveOnly(TickTable(b, t), t.end)
  {
    var x, y := TickTable(a, t), TickTable(b, t);
    forall c
      ensures c in LiveOnly(x, t.end) <==> c in LiveOnly(y, t.end)
      ensures c in LiveOnly(x, t.end) ==> x[c] == y[c]
    {
      assert c in LiveOnly(a, begun) <==> c in LiveOnly(b, begun);
      assert c in LiveOnly(a, begun) ==> LiveOnly(a, begun)[c] == LiveOnly(b, begun)[c];
    }
  }

  /** Ticks one after the other, each within the limits. */
  ghost predicate Schedule(worlds: seq<World>, ticks: seq<Tick>, begun: real) {
    && |worlds| == |ticks| + 1
    && (forall i :: 0 <= i < |ticks| ==>
          && Ticks(worlds[i], ticks[i], worlds[i + 1])
          && Safe(worlds[i], ticks[i].cutoff) && WithinCaps(worlds[i], ticks[i].cutoff))
    && (forall i :: 0 <= i < |ticks| ==> begun <= ticks[i].cutoff <= ticks[i].end)
    && (forall i, j :: 0 <= i < j < |ticks| ==> ticks[i].end <= ticks[j].cutoff)
  }

  lemma LaterTicks(worlds: seq<World>, ticks: seq<Tick>, begun: real)
    requires Schedule(worlds, ticks, begun) && ticks != []
    ensures Schedule(worlds[1..], ticks[1..], ticks[0].end)
  {
  }

  lemma FirstTickFollows(worlds: seq<World>, ticks: seq<Tick>, table: Table<Monitor>, begun: real)
    requires Schedule(worlds, ticks, begun) && ticks != []
    requires LiveOnly(table, begun) == LiveOnly(worlds[0].table, begun)
    ensures LiveOnly(TickTable(table, ticks[0]), ticks[0].end) == LiveOnly(worlds[1].table, ticks[0].end)
  {
    var t := ticks[0];
    assert Ticks(worlds[0], t, worlds[1]);
    TickIsTickTable(worlds[0], t, worlds[1]);
    assert Visited(worlds[0].table, t.visits, t.cutoff, t.end);
    TickRespectsLife(table, worlds[0].table, begun, t);
  }

  /** The service goes through a schedule as the tables do. */
  lemma {:induction false} ServiceFollowsTables(worlds: seq<World>, ticks: seq<Tick>,
                                                table: Table<Monitor>, begun: real)
    requires Schedule(worlds, ticks, begun) && LiveOnly(table, begun) == LiveOnly(worlds[0].table, begun)
    ensures var end := if ticks == [] then begun else ticks[|ticks| - 1].end;
      LiveOnly(worlds[|ticks|].table, end) == LiveOnly(AfterTicks(table, ticks), end)
    decreases |ticks|
  {
    if ticks != [] {
      FirstTickFollows(worlds, ticks, table, begun);
      LaterTicks(worlds, ticks, begun);
      ServiceFollowsTables(worlds[1..], ticks[1..], TickTable(table, ticks[0]), ticks[0].end);
    }
  }

  /** Whenever the monitor falls due, the next tick from then on comes to it within `delay`. */
  ghost predicate Prompt(c: Id, due: real, interval: real, delay: real, ticks: seq<Tick>)
    decreases |ticks|
  {
    ticks == []
    || (ticks[0].cutoff < due && Prompt(c, due, interval, delay, ticks[1..]))
    || (due <= ticks[0].cutoff && VisitAt(ticks[0], c) <= due + delay
        && Prompt(c, VisitAt(ticks[0], c) + interval, interval, delay, ticks[1..]))
  }

  function Interval(m: Monitor): real {
    (m.intervalHours * 3600) as real
  }

  /** An active monitor as creation and every check leave it: due one interval and gone one lifetime after the write. */
  ghost predicate JustWritten(slot: Slot<Monitor>) {
    var m := slot.record.data;
    m.active && 1 <= m.intervalHours && slot.expires == m.nextCheck - Interval(m) + TTL
  }

  lemma {:induction false} PromptTicksKeep(table: Table<Monitor>, c: Id, delay: real, ticks: seq<Tick>)
    requires c in table && JustWritten(table[c]) && 0.0 <= delay
    requires Interval(table[c].record.data) + delay <= TTL
    requires Prompt(c, table[c].record.data.nextCheck, Interval(table[c].record.data), delay, ticks)
    ensures c in AfterTicks(table, ticks) && JustWritten(AfterTicks(table, ticks)[c])
    decreases |ticks|
  {
    if ticks != [] {
      var t, m := ticks[0], table[c].record.data;
      var next := TickTable(table, t);
      if t.cutoff < m.nextCheck {
        assert next[c] == table[c];
      } else {
        assert next[c] == CheckedSlot(table[c], t.fetch(c.0, c.1), VisitAt(t, c));
      }
      PromptTicksKeep(next, c, delay, ticks[1..]);
    }
  }

  ghost predicate AlwaysSurvives(table: Table<Monitor>, c: Id, delay: real)
    requires c in table
  {
    forall ticks :: Prompt(c, table[c].record.data.nextCheck, Interval(table[c].record.data), delay, ticks) ==>
      c in AfterTicks(table, ticks)
  }

  /**
   * A monitor outlives every schedule with that worst delay exactly when interval plus delay fit the store's
   * lifetime.
   */
  lemma SurvivesIff(table: Table<Monitor>, c: Id, delay: real)
    requires c in table && JustWritten(table[c]) && 0.0 <= delay
    ensures AlwaysSurvives(table, c, delay) <==> Interval(table[c].record.data) + delay <= TTL
  {
    var m := table[c].record.data;
    if Interval(m) + delay <= TTL {
      forall ticks | Prompt(c, m.nextCheck, Interval(m), delay, ticks) ensures c in AfterTicks(table, ticks) {
        PromptTicksKeep(table, c, delay, ticks);
      }
    } else {
      var late := Tick(m.nextCheck + delay, m.nextCheck + delay, map[], (o, i) => Scrape(true, "", map[]));
      assert [late][1..] == [];
      assert Prompt(c, m.nextCheck, Interval(m), delay, [late]);
      assert AfterTicks(table, [late]) == TickTable(table, late);
    }
  }

  /**
   * In the service itself: under a prompt schedule a monitor whose interval and delay fit the lifetime is still
   * there.
   */
  lemma PromptMonitorsSurvive(worlds: seq<World>, ticks: seq<Tick>, c: Id, delay: real, begun: real)
    requires Schedule(worlds, ticks, begun) && ticks != [] && 0.0 <= delay
    requires c in worlds[0].table && JustWritten(worlds[0].table[c])
    requires var m := worlds[0].table[c].record.data;
      Interval(m) + delay <= TTL && Prompt(c, m.nextCheck, Interval(m), delay, ticks)
    ensures var end, tables := ticks[|ticks| - 1].end, AfterTicks(worlds[0].table, ticks);
      && c in tables && JustWritten(tables[c])
      && (end <= tables[c].expires ==> c in worlds[|ticks|].table && worlds[|ticks|].table[c] == tables[c])
  {
    PromptTicksKeep(worlds[0].table, c, delay, ticks);
    ServiceFollowsTables(worlds, ticks, worlds[0].table, begun);
    var end, tables := ticks[|ticks| - 1].end, AfterTicks(worlds[0].table, ticks);
    assert end <= tables[c].expires ==> c in LiveOnly(tables, end) && c in LiveOnly(worlds[|ticks|].table, end);
  }

  /**
   * The longest interval on offer, 168 hours, equals the lifetime: only a tick at that very instant checks the
   * monitor.
   */
  lemma WeeklyMonitorNeedsTheExactInstant(fields: seq<string>, owner: string, id: string, created: real, now: real)
    ensures var table := PutInto(map[], owner, id, Fresh(168, fields, created), created, TTL);
      && (id in DueOf(table, owner, now, now) <==> now == created + TTL)
      && (created + TTL < now ==> (owner, id) !in LiveOnly(table, now))
  {
  }
}

/**
 * The process-local rate limiter: a table of counting windows, one per key,
 * rewritten by every request and swept by a background purge.
 */
module MemoryLimiter {
  import opened Prelude
  import opened SlidingWindow

  /** How many requests a key has made in its window, and when the window opened. */
  datatype Window = Window(count: nat, start: real)

  type Table = map<string, Window>

  /** A verdict on one request, with the count it was based on. */
  datatype Decision = Decision(limited: bool, count: nat)

  // ---- What one request and one sweep do ------------------------------------

  function Look(table: Table, key: string): Option<Window> {
    if key in table then Some(table[key]) else None
  }

  predicate Lapsed(w: Window, now: real, timeframe: real) {
    now - w.start > timeframe
  }

  /** A request at `now` opens a new window. */
  predicate Opens(w: Option<Window>, timeframe: real, now: real) {
    w.None? || Lapsed(w.value, now, timeframe)
  }

  /** The window a request at `now` is counted in, with that request included. */
  function Admitted(w: Option<Window>, timeframe: real, now: real): Window {
    if Opens(w, timeframe, now) then Window(1, now) else Window(w.value.count + 1, w.value.start)
  }

  /** The first request of a window always passes; the others pass up to the limit. */
  function Judge(w: Option<Window>, limit: int, timeframe: real, now: real): Decision {
    if Opens(w, timeframe, now) then Decision(false, 1) else Decision(w.value.count + 1 > limit, w.value.count + 1)
  }

  function Swept(table: Table, now: real, timeframe: real): Table {
    map k | k in table && !Lapsed(table[k], now, timeframe) :: table[k]
  }

  class Limiter {
    var table: Table

    constructor ()
      ensures table == map[]
    {
      table := map[];
    }

    /** Counts a request and says whether it is over the limit. */
    method Check(key: string, limit: int, timeframe: real, now: real) returns (limited: bool, count: nat)
      modifies this
      ensures table == old(table)[key := Admitted(Look(old(table), key), timeframe, now)]
      ensures Decision(limited, count) == Judge(Look(old(table), key), limit, timeframe, now)
      ensures var anew := key !in old(table) || now - old(table)[key].start > timeframe;
        && count == (if anew then 1 else old(table)[key].count + 1)
        && limited == (!anew && count > limit)
        && table == old(table)[key := Window(count, if anew then now else old(table)[key].start)]
    {
      if key !in table || now - table[key].start > timeframe {
        table := table[key := Window(1, now)];
        return false, 1;
      }
      var entry := table[key];
      var newCount := entry.count + 1;
      table := table[key := Window(newCount, entry.start)];
      return newCount > limit, newCount;
    }

    /** Deletes the lapsed entries one after the other and reports how many there were. */
    method Purge(now: real, timeframe: real) returns (removed: nat)
      modifies this
      ensures table == Swept(old(table), now, timeframe)
      ensures removed == |old(table)| - |table|
      ensures forall k :: k in table <==> k in old(table) && now - old(table)[k].start <= timeframe
      ensures forall k :: k in table ==> table[k] == old(table)[k]
    {
      var expired := set k | k in table && now - table[k].start > timeframe;
      removed := |expired|;
      while expired != {}
        invariant expired <= table.Keys && |expired| <= removed
        invariant |table| + removed == |old(table)| + |expired|
        invariant forall k :: k in table ==> k in old(table) && table[k] == old(table)[k]
        invariant forall k :: k in old(table) ==>
          (k in expired || !Lapsed(old(table)[k], now, timeframe) <==> k in table)
        invariant forall k :: k in expired ==> Lapsed(old(table)[k], now, timeframe)
        decreases expired
      {
        var k :| k in expired;
        assert (table - {k}).Keys == table.Keys - {k};
        table := table - {k};
        expired := expired - {k};
      }
      assert table == Swept(old(table), now, timeframe);
    }
  }

  // ---- Runs -----------------------------------------------------------------

  datatype Op = Request(key: string, now: real) | Purge(now: real, timeframe: real)

  datatype Policy = Policy(limit: int, timeframe: real)

  function Apply(table: Table, op: Op, p: Policy): Table {
    match op
    case Request(key, now) => table[key := Admitted(Look(table, key), p.timeframe, now)]
    case Purge(now, timeframe) => Swept(table, now, timeframe)
  }

  ghost predicate Monotone(ops: seq<Op>) {
    forall i, j :: 0 <= i <= j < |ops| ==> ops[i].now <= ops[j].now
  }

  /** Sweeps use at least the limiter's own timeframe. */
  ghost predicate Patient(ops: seq<Op>, p: Policy) {
    forall i :: 0 <= i < |ops| && ops[i].Purge? ==> p.timeframe <= ops[i].timeframe
  }

  /** The table after a run that started with an empty one. */
  function TableAfter(ops: seq<Op>, p: Policy): Table {
    if ops == [] then map[] else Apply(TableAfter(ops[..|ops| - 1], p), ops[|ops| - 1], p)
  }

  predicate Asks(op: Op, key: string) {
    op.Request? && op.key == key
  }

  /** The decisions a run of requests and sweeps gives on `key`, in order. */
  function Decisions(ops: seq<Op>, p: Policy, key: string): seq<Decision> {
    if ops == [] then []
    else
      var front, op := ops[..|ops| - 1], ops[|ops| - 1];
      if !Asks(op, key) then Decisions(front, p, key)
      else Decisions(front, p, key) + [Judge(Look(TableAfter(front, p), key), p.limit, p.timeframe, op.now)]
  }

  /** How many requests on `key` a run lets through in the closed interval [from, to]. */
  function ServedBetween(ops: seq<Op>, p: Policy, key: string, from: real, to: real): nat {
    if ops == [] then 0
    else
      var front, op := ops[..|ops| - 1], ops[|ops| - 1];
      ServedBetween(front, p, key, from, to)
      + if Asks(op, key) && from <= op.now <= to
           && !Judge(Look(TableAfter(front, p), key), p.limit, p.timeframe, op.now).limited then 1 else 0
  }

  // ---- A limiter that serves one key and is never swept ----------------------

  /** The instants at which `key` makes its requests. */
  function Instants(ops: seq<Op>, key: string): seq<real> {
    if ops == [] then []
    else if !Asks(ops[|ops| - 1], key) then Instants(ops[..|ops| - 1], key)
    else Instants(ops[..|ops| - 1], key) + [ops[|ops| - 1].now]
  }

  /** The window of the lone key, when its windows opened, and its requests with their verdicts. */
  datatype Ledger = Ledger(window: Option<Window>, starts: seq<real>, log: seq<Hit>)

  function Enter(l: Ledger, now: real, p: Policy): Ledger {
    var d := Judge(l.window, p.limit, p.timeframe, now);
    var starts := if Opens(l.window, p.timeframe, now) then l.starts + [now] else l.starts;
    Ledger(Some(Admitted(l.window, p.timeframe, now)), starts,
           l.log + [Hit(now, Max(0, |starts| - 1), d.count, !d.limited)])
  }

  function LedgerOf(instants: seq<real>, p: Policy): Ledger {
    if instants == [] then Ledger(None, [], [])
    else Enter(LedgerOf(instants[..|instants| - 1], p), instants[|instants| - 1], p)
  }

  function Verdicts(log: seq<Hit>): seq<Decision> {
    seq(|log|, k requires 0 <= k < |log| => Decision(!log[k].allowed, log[k].rank))
  }

  /** The shared table and the lone key show the same window, up to one that has lapsed by `now`. */
  ghost predicate Agree(shared: Option<Window>, lone: Option<Window>, now: real, p: Policy) {
    shared == lone || (shared.None? && Lapsed(lone.value, now, p.timeframe))
  }

  lemma {:induction false} Simulation(ops: seq<Op>, p: Policy, key: string, now: real)
    requires Monotone(ops) && Patient(ops, p)
    requires ops != [] ==> ops[|ops| - 1].now <= now
    ensures Agree(Look(TableAfter(ops, p), key), LedgerOf(Instants(ops, key), p).window, now, p)
  {
    if ops != [] {
      var front, op := ops[..|ops| - 1], ops[|ops| - 1];
      Simulation(front, p, key, op.now);
      if Asks(op, key) {
        assert Instants(ops, key)[..|Instants(front, key)|] == Instants(front, key);
      }
    }
  }

  /**
   * Isolation: the decisions on a key are those of a limiter that serves this key alone and
   * is never swept. Neither other keys nor sweeps have any influence.
   */
  lemma {:induction false} KeysAreIndependent(ops: seq<Op>, p: Policy, key: string)
    requires Monotone(ops) && Patient(ops, p)
    ensures Decisions(ops, p, key) == Verdicts(LedgerOf(Instants(ops, key), p).log)
  {
    if ops != [] {
      var front, op := ops[..|ops| - 1], ops[|ops| - 1];
      KeysAreIndependent(front, p, key);
      Simulation(front, p, key, op.now);
      if Asks(op, key) {
        assert Instants(ops, key)[..|Instants(front, key)|] == Instants(front, key);
      }
    }
  }

  /** Which request has opened the window that request `k` is counted in, by the instants alone. */
  function OpenedBy(instants: seq<real>, timeframe: real, k: nat): (opener: nat)
    requires k < |instants|
    ensures opener <= k
  {
    if k == 0 then 0
    else
      var opener := OpenedBy(instants, timeframe, k - 1);
      if instants[k] - instants[opener] > timeframe then k else opener
  }

  /** What the `k`-th request of a key must be told: its number in its window, the first of which always passes. */
  function Due(instants: seq<real>, p: Policy, k: nat): Decision
    requires k < |instants|
  {
    var count := k - OpenedBy(instants, p.timeframe, k) + 1;
    Decision(count > 1 && count > p.limit, count)
  }

  lemma {:induction false} OpenedByPrefix(instants: seq<real>, longer: seq<real>, timeframe: real, k: nat)
    requires k < |instants| && instants <= longer
    ensures OpenedBy(instants, timeframe, k) == OpenedBy(longer, timeframe, k)
  {
    if k > 0 {
      OpenedByPrefix(instants, longer, timeframe, k - 1);
    }
  }

  lemma {:induction false} LedgerFollowsInstants(instants: seq<real>, p: Policy)
    ensures var l := LedgerOf(instants, p);
      && |l.log| == |instants|
      && (instants == [] <==> l.window.None?)
      && (instants != [] ==>
            var n := |instants| - 1;
            var opener := OpenedBy(instants, p.timeframe, n);
            l.window == Some(Window(n - opener + 1, instants[opener])))
      && forall k :: 0 <= k < |instants| ==> Verdicts(l.log)[k] == Due(instants, p, k)
  {
    if instants != [] {
      var n := |instants| - 1;
      var front := instants[..n];
      LedgerFollowsInstants(front, p);
      forall k | 0 <= k < n ensures Due(front, p, k) == Due(instants, p, k) {
        OpenedByPrefix(front, instants, p.timeframe, k);
      }
      if n > 0 {
        OpenedByPrefix(front, instants, p.timeframe, n - 1);
      }
      assert forall k :: 0 <= k < n ==> Verdicts(LedgerOf(instants, p).log)[k] == Verdicts(LedgerOf(front, p).log)[k];
    }
  }

  /**
   * What a key is told follows from the instants of its own requests: each opens a window when none is open or the
   * open one began more than a timeframe ago, and is counted from the one that opened it.
   */
  lemma DecisionsFollowInstants(ops: seq<Op>, p: Policy, key: string, k: nat)
    requires Monotone(ops) && Patient(ops, p)
    ensures |Decisions(ops, p, key)| == |Instants(ops, key)|
    ensures k < |Instants(ops, key)| ==> Decisions(ops, p, key)[k] == Due(Instants(ops, key), p, k)
  {
    KeysAreIndependent(ops, p, key);
    LedgerFollowsInstants(Instants(ops, key), p);
  }

  function WithoutPurges(ops: seq<Op>): seq<Op> {
    if ops == [] then []
    else if ops[|ops| - 1].Purge? then WithoutPurges(ops[..|ops| - 1])
    else WithoutPurges(ops[..|ops| - 1]) + [ops[|ops| - 1]]
  }

  lemma {:induction false} WithoutPurgesIsMonotone(ops: seq<Op>)
    requires Monotone(ops)
    ensures var kept := WithoutPurges(ops);
      && Monotone(kept) && (forall i :: 0 <= i < |kept| ==> kept[i].Request? && kept[i].now <= ops[|ops| - 1].now)
  {
    if ops != [] {
      WithoutPurgesIsMonotone(ops[..|ops| - 1]);
    }
  }

  lemma {:induction false} WithoutPurgesAsksTheSame(ops: seq<Op>, key: string)
    ensures Instants(WithoutPurges(ops), key) == Instants(ops, key)
  {
    if ops != [] {
      var front := ops[..|ops| - 1];
      WithoutPurgesAsksTheSame(front, key);
      if !ops[|ops| - 1].Purge? {
        assert WithoutPurges(ops)[..|WithoutPurges(front)|] == WithoutPurges(front);
      }
    }
  }

  /** Sweeping anywhere in a run changes no decision and no reported count on any key. */
  lemma PurgingIsInvisible(ops: seq<Op>, p: Policy, key: string)
    requires Monotone(ops) && Patient(ops, p)
    ensures Decisions(ops, p, key) == Decisions(WithoutPurges(ops), p, key)
  {
    WithoutPurgesIsMonotone(ops);
    WithoutPurgesAsksTheSame(ops, key);
    KeysAreIndependent(ops, p, key);
    KeysAreIndependent(WithoutPurges(ops), p, key);
  }

  // ---- Repeated requests, for the two witnesses below -------------------------

  function Repeat(n: nat, op: Op): seq<Op> {
    if n == 0 then [] else Repeat(n - 1, op) + [op]
  }

  /** After `ops` the window of `key` is `w`, and `served` of its requests passed in [from, to]. */
  ghost predicate Reached(ops: seq<Op>, p: Policy, key: string, from: real, to: real, w: Window, served: nat) {
    Look(TableAfter(ops, p), key) == Some(w) && ServedBetween(ops, p, key, from, to) == served
  }

  lemma FirstRequest(ops: seq<Op>, key: string, now: real, p: Policy, from: real, to: real, served: nat)
    requires Opens(Look(TableAfter(ops, p), key), p.timeframe, now) && ServedBetween(ops, p, key, from, to) == served
    ensures var counted := served + if from <= now <= to then 1 else 0;
      Reached(ops + [Request(key, now)], p, key, from, to, Window(1, now), counted)
  {
  }

  lemma OneMore(ops: seq<Op>, key: string, now: real, p: Policy, from: real, to: real, w: Window, served: nat)
    requires Reached(ops, p, key, from, to, w, served) && !Lapsed(w, now, p.timeframe)
    requires from <= now <= to && w.count + 1 <= p.limit
    ensures Reached(ops + [Request(key, now)], p, key, from, to, Window(w.count + 1, w.start), served + 1)
  {
  }

  /** `n` more requests at one instant inside an open window with room for them all pass. */
  lemma {:induction false} Burst(ops: seq<Op>, n: nat, key: string, now: real, p: Policy,
                                 from: real, to: real, w: Window, served: nat)
    requires Reached(ops, p, key, from, to, w, served) && !Lapsed(w, now, p.timeframe)
    requires from <= now <= to && 1 <= w.count && w.count + n <= Max(1, p.limit)
    ensures Reached(ops + Repeat(n, Request(key, now)), p, key, from, to, Window(w.count + n, w.start), served + n)
    decreases n
  {
    if n == 0 {
      assert ops + Repeat(0, Request(key, now)) == ops;
    } else {
      var op := Request(key, now);
      assert ops + Repeat(n, op) == (ops + [op]) + Repeat(n - 1, op) by {
        RepeatFront(n, op);
      }
      OneMore(ops, key, now, p, from, to, w, served);
      Burst(ops + [op], n - 1, key, now, p, from, to, Window(w.count + 1, w.start), served + 1);
    }
  }

  lemma {:induction false} RepeatFront(n: nat, op: Op)
    requires n > 0
    ensures Repeat(n, op) == [op] + Repeat(n - 1, op)
  {
    if n > 1 {
      RepeatFront(n - 1, op);
    }
  }

  ghost predicate SweptWith(ops: seq<Op>, timeframe: real) {
    forall i :: 0 <= i < |ops| && ops[i].Purge? ==> ops[i].timeframe == timeframe
  }

  ghost predicate Invisible(p: Policy, timeframe: real) {
    forall ops, key :: Monotone(ops) && SweptWith(ops, timeframe) ==>
      Decisions(ops, p, key) == Decisions(WithoutPurges(ops), p, key)
  }

  /** A sweep with a shorter timeframe forgets a window that is still open. */
  lemma HastyPurgeForgets(p: Policy, timeframe: real, key: string) returns (ops: seq<Op>)
    requires 0.0 <= p.timeframe && timeframe < p.timeframe
    ensures Monotone(ops) && SweptWith(ops, timeframe)
    ensures Decisions(ops, p, key) == [Decision(false, 1), Decision(false, 1)]
    ensures Decisions(WithoutPurges(ops), p, key) == [Decision(false, 1), Decision(2 > p.limit, 2)]
  {
    var ask, sweep, again := Request(key, 0.0), Op.Purge(p.timeframe, timeframe), Request(key, p.timeframe);
    ops := [ask, sweep, again];
    assert ops[..2] == [ask, sweep] && [ask, sweep][..1] == [ask] && [ask][..0] == [];
    assert [ask, again][..1] == [ask];
    assert TableAfter([ask], p) == map[key := Window(1, 0.0)];
    assert TableAfter([ask, sweep], p) == map[];
    assert Decisions([ask], p, key) == [Decision(false, 1)];
    assert Decisions([ask, sweep], p, key) == [Decision(false, 1)];
    assert WithoutPurges([ask]) == [ask];
    assert WithoutPurges([ask, sweep]) == [ask];
    assert WithoutPurges(ops) == [ask, again];
  }

  /** Sweeping is invisible in every run exactly when it is as patient as the limiter itself. */
  lemma PurgeInvisibleIff(p: Policy, timeframe: real)
    requires 0.0 <= p.timeframe
    ensures Invisible(p, timeframe) <==> p.timeframe <= timeframe
  {
    if p.timeframe <= timeframe {
      forall ops, key | Monotone(ops) && SweptWith(ops, timeframe)
        ensures Decisions(ops, p, key) == Decisions(WithoutPurges(ops), p, key)
      {
        PurgingIsInvisible(ops, p, key);
      }
    } else {
      var ops := HastyPurgeForgets(p, timeframe, "");
      assert Decisions(ops, p, "")[1].count != Decisions(WithoutPurges(ops), p, "")[1].count;
    }
  }

  // ---- The sliding bound ----------------------------------------------------

  ghost predicate Ordered(instants: seq<real>) {
    forall i, j :: 0 <= i <= j < |instants| ==> instants[i] <= instants[j]
  }

  ghost predicate Sound(l: Ledger, now: real, p: Policy) {
    && Chronicle(l.log, l.starts, p.timeframe, Max(1, p.limit))
    && (l.window.Some? <==> l.starts != [])
    && (l.window.Some? <==> l.log != [])
    && (l.window.Some? ==>
      && l.log[|l.log| - 1].epoch == |l.starts| - 1
      && 1 <= l.log[|l.log| - 1].rank == l.window.value.count
      && l.window.value.start == l.starts[|l.starts| - 1] <= now)
    && (forall i :: 0 <= i < |l.log| ==> l.window.Some? && l.log[i].time <= l.window.value.start + p.timeframe)
  }

  lemma EnterOpenWindow(l: Ledger, now: real, p: Policy)
    requires Sound(l, now, p) && !Opens(l.window, p.timeframe, now)
    ensures Sound(Enter(l, now, p), now, p)
  {
    var d := Judge(l.window, p.limit, p.timeframe, now);
    Append(l.log, l.starts, p.timeframe, Max(1, p.limit), Hit(now, |l.starts| - 1, d.count, !d.limited));
  }

  lemma EnterNewWindow(l: Ledger, now: real, p: Policy)
    requires Sound(l, now, p) && Opens(l.window, p.timeframe, now) && 0.0 <= p.timeframe
    ensures Sound(Enter(l, now, p), now, p)
  {
    Open(l.log, l.starts, p.timeframe, Max(1, p.limit), now);
    Append(l.log, l.starts + [now], p.timeframe, Max(1, p.limit), Hit(now, |l.starts|, 1, true));
  }

  lemma EnterKeeps(l: Ledger, now: real, later: real, p: Policy)
    requires Sound(l, now, p) && 0.0 <= p.timeframe && now <= later
    ensures Sound(Enter(l, now, p), later, p)
  {
    if Opens(l.window, p.timeframe, now) {
      EnterNewWindow(l, now, p);
    } else {
      EnterOpenWindow(l, now, p);
    }
  }

  lemma {:induction false} LedgerIsSound(instants: seq<real>, p: Policy, now: real)
    requires Ordered(instants) && 0.0 <= p.timeframe
    requires instants != [] ==> instants[|instants| - 1] <= now
    ensures Sound(LedgerOf(instants, p), now, p)
  {
    if instants != [] {
      var front, last := instants[..|instants| - 1], instants[|instants| - 1];
      LedgerIsSound(front, p, last);
      EnterKeeps(LedgerOf(front, p), last, now, p);
    }
  }

  /** The most requests on a key that can pass in a closed interval of one timeframe. */
  function Peak(p: Policy): nat {
    if p.timeframe > 0.0 then 2 * Max(1, p.limit) - 1 else Max(1, p.limit)
  }

  lemma LedgerBound(l: Ledger, now: real, p: Policy, from: real)
    requires Sound(l, now, p) && 0.0 <= p.timeframe
    ensures AllowedBetween(l.log, from, from + p.timeframe) <= Peak(p)
  {
    if p.timeframe > 0.0 {
      SlidingBound(l.log, l.starts, p.timeframe, Max(1, p.limit), from);
    } else {
      InstantBound(l.log, l.starts, p.timeframe, Max(1, p.limit), from);
    }
  }

  lemma LoneBound(instants: seq<real>, p: Policy, from: real)
    requires Ordered(instants) && 0.0 <= p.timeframe
    ensures AllowedBetween(LedgerOf(instants, p).log, from, from + p.timeframe) <= Peak(p)
  {
    var now := if instants == [] then 0.0 else instants[|instants| - 1];
    LedgerIsSound(instants, p, now);
    LedgerBound(LedgerOf(instants, p), now, p, from);
  }

  lemma {:induction false} InstantsAreOrdered(ops: seq<Op>, key: string)
    requires Monotone(ops)
    ensures Ordered(Instants(ops, key))
    ensures forall i :: 0 <= i < |Instants(ops, key)| ==> Instants(ops, key)[i] <= ops[|ops| - 1].now
  {
    if ops != [] {
      InstantsAreOrdered(ops[..|ops| - 1], key);
    }
  }

  lemma {:induction false} ServedIsLogged(ops: seq<Op>, p: Policy, key: string, from: real, to: real)
    requires Monotone(ops) && Patient(ops, p)
    ensures ServedBetween(ops, p, key, from, to) == AllowedBetween(LedgerOf(Instants(ops, key), p).log, from, to)
  {
    if ops != [] {
      var front, op := ops[..|ops| - 1], ops[|ops| - 1];
      ServedIsLogged(front, p, key, from, to);
      Simulation(front, p, key, op.now);
      if Asks(op, key) {
        var instants := Instants(ops, key);
        assert instants[..|instants| - 1] == Instants(front, key);
        var log := LedgerOf(instants, p).log;
        assert log[..|log| - 1] == LedgerOf(Instants(front, key), p).log;
      }
    }
  }

  /**
   * The sliding-window guarantee for every run, with any other keys and any sweeps in between:
   * a closed interval of one timeframe holds at most `2 * max(1, limit) - 1` requests let through,
   * and `max(1, limit)` of them when the timeframe is a single instant.
   */
  lemma MemorySlidingBound(ops: seq<Op>, p: Policy, key: string, from: real)
    requires Monotone(ops) && Patient(ops, p) && 0.0 <= p.timeframe
    ensures ServedBetween(ops, p, key, from, from + p.timeframe) <= Peak(p)
  {
    var instants := Instants(ops, key);
    InstantsAreOrdered(ops, key);
    LoneBound(instants, p, from);
    ServedIsLogged(ops, p, key, from, from + p.timeframe);
  }

  lemma {:induction false} BurstIsMonotone(ops: seq<Op>, n: nat, op: Op)
    requires Monotone(ops) && (ops != [] ==> ops[|ops| - 1].now <= op.now)
    ensures Monotone(ops + Repeat(n, op)) && |Repeat(n, op)| == n
    ensures forall i :: |ops| <= i < |ops| + n ==> (ops + Repeat(n, op))[i] == op
  {
    if n > 0 {
      BurstIsMonotone(ops, n - 1, op);
      assert ops + Repeat(n, op) == (ops + Repeat(n - 1, op)) + [op];
    }
  }

  /** A request, and the rest of the limit at instant `later`. */
  function Opening(p: Policy, key: string, later: real): seq<Op> {
    [Request(key, 0.0)] + Repeat(Max(1, p.limit) - 1, Request(key, later))
  }

  /** A request, the rest of the limit one timeframe later, and a whole limit at two timeframes. */
  function LateAndEarly(p: Policy, key: string): seq<Op> {
    var twice := 2.0 * p.timeframe;
    (Opening(p, key, p.timeframe) + [Request(key, twice)]) + Repeat(Max(1, p.limit) - 1, Request(key, twice))
  }

  lemma OpeningIsARun(p: Policy, key: string, later: real)
    requires 0.0 <= later
    ensures Monotone(Opening(p, key, later)) && Patient(Opening(p, key, later), p)
    ensures forall i :: 0 <= i < |Opening(p, key, later)| ==> Opening(p, key, later)[i].now <= later
  {
    BurstIsMonotone([Request(key, 0.0)], Max(1, p.limit) - 1, Request(key, later));
  }

  lemma LateAndEarlyIsARun(p: Policy, key: string)
    requires 0.0 < p.timeframe
    ensures Monotone(LateAndEarly(p, key)) && Patient(LateAndEarly(p, key), p)
  {
    OpeningIsARun(p, key, p.timeframe);
    var ops := Opening(p, key, p.timeframe) + [Request(key, 2.0 * p.timeframe)];
    BurstIsMonotone(ops, Max(1, p.limit) - 1, Request(key, 2.0 * p.timeframe));
  }

  /** The rest of the opening window passes at one instant within the timeframe. */
  lemma OpeningPasses(p: Policy, key: string, later: real, to: real)
    requires 0.0 <= later <= p.timeframe && later <= to
    ensures var served := Max(1, p.limit) - (if later == 0.0 then 0 else 1);
      Reached(Opening(p, key, later), p, key, later, to, Window(Max(1, p.limit), 0.0), served)
  {
    FirstRequest([], key, 0.0, p, later, to, 0);
    assert [] + [Request(key, 0.0)] == [Request(key, 0.0)];
    var first := if later == 0.0 then 1 else 0;
    Burst([Request(key, 0.0)], Max(1, p.limit) - 1, key, later, p, later, to, Window(1, 0.0), first);
  }

  /** A whole limit passes in the window that opens at two timeframes. */
  lemma NextWindowPasses(ops: seq<Op>, p: Policy, key: string, served: nat)
    requires 0.0 < p.timeframe
    requires Reached(ops, p, key, p.timeframe, 2.0 * p.timeframe, Window(Max(1, p.limit), 0.0), served)
    ensures var twice := 2.0 * p.timeframe;
      var longer := (ops + [Request(key, twice)]) + Repeat(Max(1, p.limit) - 1, Request(key, twice));
      ServedBetween(longer, p, key, p.timeframe, twice) == served + Max(1, p.limit)
  {
    var t, twice := p.timeframe, 2.0 * p.timeframe;
    FirstRequest(ops, key, twice, p, t, twice, served);
    Burst(ops + [Request(key, twice)], Max(1, p.limit) - 1, key, twice, p, t, twice, Window(1, twice), served + 1);
  }

  ghost predicate PeaksIn(ops: seq<Op>, p: Policy, key: string, from: real) {
    && Monotone(ops) && Patient(ops, p)
    && ServedBetween(ops, p, key, from, from + p.timeframe) == Peak(p)
  }

  /** The bound is met for every limit and timeframe: late in one window and early in the next. */
  lemma MemoryBoundIsMet(p: Policy, key: string)
    requires 0.0 <= p.timeframe
    ensures exists ops, from :: PeaksIn(ops, p, key, from)
  {
    if p.timeframe > 0.0 {
      OpeningPasses(p, key, p.timeframe, 2.0 * p.timeframe);
      NextWindowPasses(Opening(p, key, p.timeframe), p, key, Max(1, p.limit) - 1);
      LateAndEarlyIsARun(p, key);
      assert PeaksIn(LateAndEarly(p, key), p, key, p.timeframe);
    } else {
      OpeningPasses(p, key, 0.0, 0.0);
      OpeningIsARun(p, key, 0.0);
      assert PeaksIn(Opening(p, key, 0.0), p, key, 0.0);
    }
  }
}

/**
 * The two-level cache: every worker has its own memory level in front of one
 * shared Redis level, with shorter lifetimes in memory.
 */
module TieredCache {
  import opened Prelude

  /** A JSON value other than null. */
  type Value = string

  /** A memory entry and the instant from which it counts as expired. */
  datatype Local = Local(value: Option<Value>, expiry: real)

  /** A Redis entry: who wrote it when, and for how long; `ttl` zero means without expiry. */
  datatype Shared = Shared(value: Option<Value>, setAt: real, ttl: nat)

  type L1 = map<string, Local>
  type L2 = map<string, Shared>

  const PROMOTION_TTL := 60
  const MAX_MEMORY_TTL := 300

  // ---- What the operations do -----------------------------------------------------------

  function LocalGet(l1: L1, key: string, now: real): Option<Value> {
    if key in l1 && l1[key].expiry > now then l1[key].value else None
  }

  /** Reading removes an entry found expired. */
  function LocalAfterGet(l1: L1, key: string, now: real): L1 {
    if key in l1 && l1[key].expiry <= now then l1 - {key} else l1
  }

  function LocalAfterSet(l1: L1, key: string, value: Option<Value>, ttl: int, now: real): L1 {
    l1[key := Local(value, now + ttl as real)]
  }

  predicate Unexpired(e: Shared, now: real) {
    e.ttl == 0 || now <= e.setAt + e.ttl as real
  }

  /** The value Redis holds for `key` at `now`. */
  function Current(l2: L2, key: string, now: real): Option<Value> {
    if key in l2 && Unexpired(l2[key], now) then l2[key].value else None
  }

  /** A zero lifetime sets no expiry at all; Redis refuses a negative one. */
  function SharedAfterSet(l2: L2, key: string, value: Option<Value>, ttl: int, now: real): L2 {
    if ttl < 0 then l2 else l2[key := Shared(value, now, ttl)]
  }

  /** Memory first, then Redis. */
  function Lookup(l1: L1, l2: L2, key: string, now: real): Option<Value> {
    if LocalGet(l1, key, now).Some? then LocalGet(l1, key, now) else Current(l2, key, now)
  }

  /** A value found only in Redis is copied to memory for a minute. */
  function AfterLookup(l1: L1, l2: L2, key: string, now: real): L1 {
    if LocalGet(l1, key, now).Some? then l1
    else
      var read := LocalAfterGet(l1, key, now);
      match Current(l2, key, now)
      case None => read
      case Some(v) => LocalAfterSet(read, key, Some(v), PROMOTION_TTL, now)
  }

  function WithPrefix(keys: set<string>, prefix: string): set<string> {
    set k | k in keys && StartsWith(k, prefix)
  }

  class MemoryCache {
    var store: L1

    constructor ()
      ensures store == map[]
    {
      store := map[];
    }

    method Get(key: string, now: real) returns (value: Option<Value>)
      modifies this
      ensures value == LocalGet(old(store), key, now) && store == LocalAfterGet(old(store), key, now)
      ensures value == if key in old(store) && now < old(store)[key].expiry then old(store)[key].value else None
      ensures forall k :: k in store <==> k in old(store) && (k == key ==> now < old(store)[k].expiry)
      ensures forall k :: k in store ==> store[k] == old(store)[k]
    {
      if key in store {
        if store[key].expiry > now {
          return store[key].value;
        }
        store := store - {key};
      }
      return None;
    }

    method Set(key: string, value: Option<Value>, ttl: int, now: real)
      modifies this
      ensures store == LocalAfterSet(old(store), key, value, ttl, now)
    {
      store := store[key := Local(value, now + ttl as real)];
    }

    method Delete(key: string) returns (existed: bool)
      modifies this
      ensures existed == (key in old(store)) && store == old(store) - {key}
    {
      existed := key in store;
      store := store - {key};
    }

    /** Deletes the keys with the prefix one by one, or everything when there is no pattern. */
    method Clear(prefix: Option<string>) returns (count: nat)
      modifies this
      ensures var gone := if prefix.None? then old(store).Keys else WithPrefix(old(store).Keys, prefix.value);
        store == old(store) - gone
      ensures count == |old(store)| - |store|
    {
      if prefix.None? {
        count := |store|;
        store := map[];
        return;
      }
      count := DropAll(WithPrefix(store.Keys, prefix.value));
    }

    /** Removes every entry that has expired. */
    method CleanupExpired(now: real) returns (count: nat)
      modifies this
      ensures forall k :: k in store <==> k in old(store) && old(store)[k].expiry > now
      ensures forall k :: k in store ==> store[k] == old(store)[k]
      ensures count == |old(store)| - |store|
    {
      count := DropAll(set k | k in store && store[k].expiry <= now);
    }

    method DropAll(keys: set<string>) returns (count: nat)
      requires keys <= store.Keys
      modifies this
      ensures store == old(store) - keys && count == |keys| == |old(store)| - |store|
    {
      count := |keys|;
      var todo := keys;
      while todo != {}
        invariant todo <= keys && todo <= store.Keys
        invariant |store| + |keys| == |old(store)| + |todo|
        invariant forall k :: k in store ==> k in old(store) && store[k] == old(store)[k]
        invariant forall k :: k in old(store) ==> (k in store <==> k !in keys || k in todo)
        decreases todo
      {
        var k :| k in todo;
        assert (store - {k}).Keys == store.Keys - {k};
        store := store - {k};
        todo := todo - {k};
      }
      assert store == old(store) - keys;
    }
  }

  class RedisCache {
    var store: L2

    constructor ()
      ensures store == map[]
    {
      store := map[];
    }

    method Get(key: string, now: real) returns (value: Option<Value>)
      ensures value == Current(store, key, now)
    {
      value := if key in store && Unexpired(store[key], now) then store[key].value else None;
    }

    method Set(key: string, value: Option<Value>, ttl: int, now: real) returns (ok: bool)
      modifies this
      ensures ok == (ttl >= 0) && store == SharedAfterSet(old(store), key, value, ttl, now)
    {
      ok := ttl >= 0;
      if ok {
        store := store[key := Shared(value, now, ttl)];
      }
    }

    method Delete(key: string, now: real) returns (existed: bool)
      modifies this
      ensures existed == (key in old(store) && Unexpired(old(store)[key], now)) && store == old(store) - {key}
    {
      existed := key in store && Unexpired(store[key], now);
      store := store - {key};
    }
  }

  class Tiered {
    const memory: MemoryCache
    const redis: RedisCache

    constructor (redis: RedisCache)
      ensures fresh(memory) && memory.store == map[] && this.redis == redis
    {
      memory := new MemoryCache();
      this.redis := redis;
    }

    method Get(key: string, now: real) returns (value: Option<Value>)
      modifies memory
      ensures value == Lookup(old(memory.store), redis.store, key, now)
      ensures memory.store == AfterLookup(old(memory.store), redis.store, key, now)
    {
      value := memory.Get(key, now);
      if value.Some? {
        return;
      }
      value := redis.Get(key, now);
      if value.Some? {
        memory.Set(key, value, PROMOTION_TTL, now);
      }
    }

    method Set(key: string, value: Option<Value>, ttl: int, now: real)
      modifies memory, redis
      ensures memory.store == LocalAfterSet(old(memory.store), key, value, Min(ttl, MAX_MEMORY_TTL), now)
      ensures redis.store == SharedAfterSet(old(redis.store), key, value, ttl, now)
    {
      memory.Set(key, value, Min(ttl, MAX_MEMORY_TTL), now);
      var _ := redis.Set(key, value, ttl, now);
    }

    method Delete(key: string, now: real) returns (existed: bool)
      modifies memory, redis
      ensures memory.store == old(memory.store) - {key} && redis.store == old(redis.store) - {key}
      ensures var shared := old(redis.store);
        existed == (key in old(memory.store) || (key in shared && Unexpired(shared[key], now)))
    {
      var inMemory := memory.Delete(key);
      var inRedis := redis.Delete(key, now);
      existed := inMemory || inRedis;
    }
  }

  // ---- A fleet of workers ------------------------------------------------------------------

  datatype Op =
    | Get(worker: nat, key: string)
    | Set(worker: nat, key: string, value: Option<Value>, ttl: int)
    | Delete(worker: nat, key: string)
    | Forget(worker: nat, locals: set<string>, shareds: set<string>)  // clear, sweep or eviction

  datatype Event = Event(op: Op, at: real)

  datatype Fleet = Fleet(l1: map<nat, L1>, l2: L2)

  function Memory(f: Fleet, worker: nat): L1 {
    if worker in f.l1 then f.l1[worker] else map[]
  }

  function Step(f: Fleet, e: Event): Fleet {
    match e.op
    case Get(w, key) =>
      f.(l1 := f.l1[w := AfterLookup(Memory(f, w), f.l2, key, e.at)])
    case Set(w, key, value, ttl) =>
      Fleet(f.l1[w := LocalAfterSet(Memory(f, w), key, value, Min(ttl, MAX_MEMORY_TTL), e.at)],
            SharedAfterSet(f.l2, key, value, ttl, e.at))
    case Delete(w, key) =>
      Fleet(f.l1[w := Memory(f, w) - {key}], f.l2 - {key})
    case Forget(w, locals, shareds) =>
      Fleet(f.l1[w := Memory(f, w) - locals], f.l2 - shareds)
  }

  function After(run: seq<Event>): Fleet {
    if run == [] then Fleet(map[], map[]) else Step(After(run[..|run| - 1]), run[|run| - 1])
  }

  ghost predicate Monotone(run: seq<Event>, now: real) {
    && (forall i, j :: 0 <= i <= j < |run| ==> run[i].at <= run[j].at)
    && (forall i :: 0 <= i < |run| ==> run[i].at <= now)
  }

  /** Between event `n - 1` and event `n` of the run, instant `t` included. */
  ghost predicate InEffect(run: seq<Event>, n: nat, t: real) {
    n <= |run| && (n > 0 ==> run[n - 1].at <= t) && (n < |run| ==> t <= run[n].at)
  }

  /** At instant `t`, after `n` events, Redis held `v` for the key. */
  ghost predicate WasCurrent(run: seq<Event>, key: string, v: Value, n: nat, t: real) {
    InEffect(run, n, t) && Current(After(run[..n]).l2, key, t) == Some(v)
  }

  /** The copy taken at `t` expires within five minutes, and within a minute of the original's lifetime. */
  ghost predicate Taken(run: seq<Event>, key: string, v: Value, expiry: real, n: nat, t: real) {
    && WasCurrent(run, key, v, n, t)
    && expiry <= t + MAX_MEMORY_TTL as real
    && var e := After(run[..n]).l2[key];
       e.ttl > 0 ==> expiry <= e.setAt + e.ttl as real + PROMOTION_TTL as real
  }

  predicate Fresh(m: L1, key: string, now: real) {
    key in m && m[key].expiry > now && m[key].value.Some?
  }

  ghost predicate HasSource(run: seq<Event>, copy: Local, key: string, now: real)
    requires copy.value.Some?
  {
    exists n, t :: t <= now && Taken(run, key, copy.value.value, copy.expiry, n, t)
  }

  /** Every memory copy that has not expired by `now` was taken from Redis at some instant up to `now`. */
  ghost predicate Sourced(run: seq<Event>, now: real) {
    forall w, key :: Fresh(Memory(After(run), w), key, now) ==> HasSource(run, Memory(After(run), w)[key], key, now)
  }

  lemma TakenStays(run: seq<Event>, e: Event, key: string, v: Value, expiry: real, n: nat, t: real)
    requires Taken(run, key, v, expiry, n, t) && t <= e.at
    ensures Taken(run + [e], key, v, expiry, n, t)
  {
    assert (run + [e])[..n] == run[..n];
  }

  /** A copy that an event takes or keeps has its source. */
  lemma CopyIsSourced(run: seq<Event>, e: Event, w: nat, key: string)
    requires Sourced(run, e.at) && Monotone(run, e.at)
    requires Fresh(Memory(After(run + [e]), w), key, e.at)
    ensures HasSource(run + [e], Memory(After(run + [e]), w)[key], key, e.at)
  {
    var longer := run + [e];
    assert longer[..|run|] == run && longer[..|run| + 1] == longer;
    var before, entry := Memory(After(run), w), Memory(After(longer), w)[key];
    if key in before && before[key] == entry {
      var n, t :| t <= e.at && Taken(run, key, entry.value.value, entry.expiry, n, t);
      TakenStays(run, e, key, entry.value.value, entry.expiry, n, t);
    } else if e.op.Get? {
      assert Taken(longer, key, entry.value.value, entry.expiry, |run|, e.at);
    } else {
      assert e.op.Set? && e.op.ttl > 0;
      assert Taken(longer, key, entry.value.value, entry.expiry, |run| + 1, e.at);
    }
  }

  lemma LaterIsSourced(run: seq<Event>, now: real, later: real)
    requires Sourced(run, now) && now <= later
    ensures Sourced(run, later)
  {
  }

  lemma {:induction false} RunIsSourced(run: seq<Event>, now: real)
    requires Monotone(run, now)
    ensures Sourced(run, now)
  {
    if run != [] {
      var front, e := run[..|run| - 1], run[|run| - 1];
      RunIsSourced(front, e.at);
      assert front + [e] == run;
      forall w, key | Fresh(Memory(After(run), w), key, e.at)
        ensures HasSource(run, Memory(After(run), w)[key], key, e.at)
      {
        CopyIsSourced(front, e, w, key);
      }
      LaterIsSourced(run, e.at, now);
    }
  }

  // ---- What Redis holds, by the events alone -------------------------------------------------

  /** The operation writes or removes `key` in Redis; a write with a negative lifetime is refused. */
  predicate Touches(op: Op, key: string) {
    match op
    case Get(_, _) => false
    case Set(_, k, _, ttl) => k == key && 0 <= ttl
    case Delete(_, k) => k == key
    case Forget(_, _, shareds) => key in shareds
  }

  /** Event `i` of the run is a write of `key`, and no later one touches it in Redis. */
  ghost predicate WritesLast(run: seq<Event>, i: nat, key: string) {
    && i < |run| && run[i].op.Set? && Touches(run[i].op, key)
    && forall j :: i < j < |run| ==> !Touches(run[j].op, key)
  }

  /** A write lasts for its lifetime, and for ever when that is zero. */
  predicate Lasts(e: Event, now: real)
    requires e.op.Set?
  {
    e.op.ttl == 0 || now <= e.at + e.op.ttl as real
  }

  lemma {:induction false} WrittenStays(run: seq<Event>, i: nat, key: string)
    requires WritesLast(run, i, key)
    ensures var e := run[i];
      key in After(run).l2 && After(run).l2[key] == Shared(e.op.value, e.at, e.op.ttl)
  {
    if i < |run| - 1 {
      WrittenStays(run[..|run| - 1], i, key);
    }
  }

  lemma {:induction false} HeldWasWritten(run: seq<Event>, key: string) returns (i: nat)
    requires key in After(run).l2
    ensures WritesLast(run, i, key)
  {
    if run != [] {
      if Touches(run[|run| - 1].op, key) {
        i := |run| - 1;
      } else {
        i := HeldWasWritten(run[..|run| - 1], key);
      }
    }
  }

  ghost predicate HoldsBy(run: seq<Event>, key: string, v: Value, now: real, i: nat) {
    WritesLast(run, i, key) && run[i].op.value == Some(v) && Lasts(run[i], now)
  }

  /** Redis holds a value exactly while the write that touched the key last is that value's and lasts. */
  lemma RedisHoldsIff(run: seq<Event>, key: string, v: Value, now: real)
    ensures Current(After(run).l2, key, now) == Some(v) <==> exists i :: HoldsBy(run, key, v, now, i)
  {
    if i: nat :| HoldsBy(run, key, v, now, i) {
      WrittenStays(run, i, key);
    }
    if Current(After(run).l2, key, now) == Some(v) {
      var i := HeldWasWritten(run, key);
      WrittenStays(run, i, key);
      assert HoldsBy(run, key, v, now, i);
    }
  }

  /** The worker has an unexpired copy in memory. */
  predicate HasCopy(m: L1, key: string, now: real) {
    key in m && now < m[key].expiry && m[key].value.Some?
  }

  /**
   * A cached value is served while its lifetime lasts: every worker finds something, and every worker without a
   * copy of its own finds exactly what was written last.
   */
  lemma ServedWhileItLasts(run: seq<Event>, i: nat, key: string, w: nat, now: real)
    requires WritesLast(run, i, key) && run[i].op.value.Some? && Lasts(run[i], now)
    ensures var m, l2 := Memory(After(run), w), After(run).l2;
      && Lookup(m, l2, key, now).Some?
      && (!HasCopy(m, key, now) ==> Lookup(m, l2, key, now) == run[i].op.value)
  {
    WrittenStays(run, i, key);
  }

  /** A worker without a copy finds a value only if some write of it lasts. */
  lemma NothingElseIsServed(run: seq<Event>, key: string, w: nat, now: real)
    requires !HasCopy(Memory(After(run), w), key, now)
    ensures var found := Lookup(Memory(After(run), w), After(run).l2, key, now);
      found.Some? ==> exists i :: HoldsBy(run, key, found.value, now, i)
  {
    var found := Lookup(Memory(After(run), w), After(run).l2, key, now);
    if found.Some? {
      RedisHoldsIff(run, key, found.value, now);
    }
  }

  // ---- What a worker's memory serves ------------------------------------------------------------

  /** The operation replaces or removes `key` in the memory of `w`; reading leaves an unexpired copy alone. */
  predicate TouchesMemory(op: Op, w: nat, key: string) {
    op.worker == w &&
    match op
    case Get(_, _) => false
    case Set(_, k, _, _) => k == key
    case Delete(_, k) => k == key
    case Forget(_, locals, _) => key in locals
  }

  lemma {:induction false} CopyStays(run: seq<Event>, n: nat, w: nat, key: string, copy: Local, now: real)
    requires n <= |run| && Monotone(run, now) && now < copy.expiry && copy.value.Some?
    requires key in Memory(After(run[..n]), w) && Memory(After(run[..n]), w)[key] == copy
    requires forall j :: n <= j < |run| ==> !TouchesMemory(run[j].op, w, key)
    ensures key in Memory(After(run), w) && Memory(After(run), w)[key] == copy
    decreases |run|
  {
    if n == |run| {
      assert run[..n] == run;
    } else {
      var front := run[..|run| - 1];
      assert front[..n] == run[..n];
      CopyStays(front, n, w, key, copy, now);
    }
  }

  /** What a worker deletes or forgets is gone from its memory until it reads or writes the key again. */
  lemma {:induction false} RemovedStaysAway(run: seq<Event>, i: nat, w: nat, key: string)
    requires i < |run| && (run[i].op == Delete(w, key) || (run[i].op.Forget? && TouchesMemory(run[i].op, w, key)))
    requires forall j :: i < j < |run| && run[j].op.worker == w && (run[j].op.Get? || run[j].op.Set?) ==>
      run[j].op.key != key
    ensures key !in Memory(After(run), w)
    decreases |run|
  {
    if i < |run| - 1 {
      RemovedStaysAway(run[..|run| - 1], i, w, key);
    }
  }

  /** A worker reads its own write back for its lifetime, five minutes at most, whatever the others do. */
  lemma OwnWriteIsReadBack(run: seq<Event>, i: nat, key: string, now: real)
    requires i < |run| && Monotone(run, now) && run[i].op.Set? && run[i].op.key == key && run[i].op.value.Some?
    requires forall j :: i < j < |run| ==> !TouchesMemory(run[j].op, run[i].op.worker, key)
    requires now < run[i].at + run[i].op.ttl as real && now < run[i].at + 300.0
    ensures Lookup(Memory(After(run), run[i].op.worker), After(run).l2, key, now) == run[i].op.value
  {
    var e, upTo := run[i], run[..i + 1];
    assert upTo[..|upTo| - 1] == run[..i];
    var copy := Local(e.op.value, e.at + Min(e.op.ttl, MAX_MEMORY_TTL) as real);
    CopyStays(run, i + 1, e.op.worker, key, copy, now);
  }

  /** What a worker has read from Redis it reads again for one minute, and its memory answers. */
  lemma PromotionServesAMinute(run: seq<Event>, i: nat, key: string, v: Value, now: real)
    requires i < |run| && Monotone(run, now) && run[i].op.Get? && run[i].op.key == key
    requires !HasCopy(Memory(After(run[..i]), run[i].op.worker), key, run[i].at)
    requires Current(After(run[..i]).l2, key, run[i].at) == Some(v)
    requires forall j :: i < j < |run| ==> !TouchesMemory(run[j].op, run[i].op.worker, key)
    ensures var m := Memory(After(run), run[i].op.worker);
      now < run[i].at + 60.0 ==>
        key in m && m[key] == Local(Some(v), run[i].at + 60.0) && Lookup(m, After(run).l2, key, now) == Some(v)
  {
    var e, upTo := run[i], run[..i + 1];
    assert upTo[..|upTo| - 1] == run[..i];
    if now < run[i].at + 60.0 {
      CopyStays(run, i + 1, e.op.worker, key, Local(Some(v), e.at + 60.0), now);
    }
  }

  // ---- Main result ------------------------------------------------------------------------------

  lemma CurrentWasWritten(run: seq<Event>, key: string, v: Value, n: nat, t: real) returns (i: nat)
    requires WasCurrent(run, key, v, n, t)
    ensures HoldsBy(run[..n], key, v, t, i)
    ensures After(run[..n]).l2[key] == Shared(Some(v), run[i].at, run[i].op.ttl)
  {
    i := HeldWasWritten(run[..n], key);
    WrittenStays(run[..n], i, key);
  }

  /**
   * Bounded staleness: a value any worker reads at `now` was what Redis held at some instant less than five
   * minutes ago, by a write that no operation up to then had undone; and if it was written with a lifetime, that
   * lifetime ended less than a minute ago.
   */
  lemma BoundedStaleness(run: seq<Event>, w: nat, key: string, now: real) returns (n: nat, t: real, i: nat)
    requires Monotone(run, now)
    requires Lookup(Memory(After(run), w), After(run).l2, key, now).Some?
    ensures now - 300.0 < t <= now
    ensures WasCurrent(run, key, Lookup(Memory(After(run), w), After(run).l2, key, now).value, n, t)
    ensures HoldsBy(run[..n], key, Lookup(Memory(After(run), w), After(run).l2, key, now).value, t, i)
    ensures run[i].op.ttl > 0 ==> now < run[i].at + run[i].op.ttl as real + 60.0
  {
    RunIsSourced(run, now);
    var m := Memory(After(run), w);
    if LocalGet(m, key, now).Some? {
      n, t :| t <= now && Taken(run, key, m[key].value.value, m[key].expiry, n, t);
    } else {
      n, t := |run|, now;
      assert run[..|run|] == run;
    }
    i := CurrentWasWritten(run, key, Lookup(m, After(run).l2, key, now).value, n, t);
  }

  /** Without a lifetime there is no end: a value written with ttl zero is served at every later instant. */
  lemma ZeroLifetimeNeverEnds(w: nat, key: string, v: Value, at: real, now: real)
    requires at <= now
    ensures var f := After([Event(Set(w, key, Some(v), 0), at)]);
      Lookup(Memory(f, w), f.l2, key, now) == Some(v)
  {
  }
}

/**
 * The owner-scoped record store on its in-memory backend: an insertion-ordered
 * dictionary from "namespace:owner:id" to records that expire.
 */
module RecordStore {
  import opened Prelude
  import opened OrderedDict

  datatype Record<+D> = Record(id: string, owner: string, data: D, createdAt: real, updatedAt: real)

  /** A stored record and the last instant at which it is alive. */
  datatype Slot<+D> = Slot(expires: real, record: Record<D>)

  type Slots<D> = Items<string, Slot<D>>

  // ---- Keys -------------------------------------------------------------------

  function OwnerPrefix(namespace: string, owner: string): string {
    namespace + ":" + owner + ":"
  }

  function Key(namespace: string, owner: string, id: string): string {
    OwnerPrefix(namespace, owner) + id
  }

  /** `namespace.rstrip(":")` */
  function WithoutColons(namespace: string): (s: string)
    ensures StartsWith(namespace, s) && (s != "" ==> namespace[|s| - 1] != ':')
    ensures forall i :: |s| <= i < |namespace| ==> namespace[i] == ':'
  {
    var n := |namespace|;
    if n > 0 && namespace[n - 1] == ':' then WithoutColons(namespace[..n - 1]) else namespace
  }

  lemma KeyIsSpelled(namespace: string, owner: string, id: string)
    ensures Key(namespace, owner, id) == namespace + ":" + owner + ":" + id
  {
  }

  predicate ColonFree(owner: string) {
    ':' !in owner
  }

  lemma {:induction false} ColonEndsOwner(mine: string, owner: string, id: string)
    requires ColonFree(mine) && ColonFree(owner)
    ensures StartsWith(owner + ":" + id, mine + ":") <==> owner == mine
  {
    var key, prefix := owner + ":" + id, mine + ":";
    if mine != [] && owner != [] && mine[0] == owner[0] {
      assert key[1..] == owner[1..] + ":" + id && prefix[1..] == mine[1..] + ":";
      ColonEndsOwner(mine[1..], owner[1..], id);
      assert mine == [mine[0]] + mine[1..] && owner == [owner[0]] + owner[1..];
      assert key == [key[0]] + key[1..] && prefix == [prefix[0]] + prefix[1..];
      PrefixCancels([key[0]], key[1..], prefix[1..]);
    } else if owner == mine {
      assert key[..|prefix|] == prefix;
    } else {
      HeadOfPrefix(key, prefix);
    }
  }

  lemma HeadOfPrefix(s: string, p: string)
    requires p != []
    ensures StartsWith(s, p) ==> s[0] == p[0]
  {
  }

  lemma PrefixCancels(common: string, s: string, p: string)
    ensures StartsWith(common + s, common + p) <==> StartsWith(s, p)
  {
    var n := |common|;
    if |p| <= |s| {
      assert (common + s)[..n + |p|] == common + s[..|p|];
      assert (common + s[..|p|])[n..] == s[..|p|] && (common + p)[n..] == p;
    }
  }

  /** The scan for one colon-free owner meets exactly that owner's keys, whatever the ids are. */
  lemma ScanIsScoped(namespace: string, mine: string, owner: string, id: string)
    requires ColonFree(mine) && ColonFree(owner)
    ensures StartsWith(Key(namespace, owner, id), OwnerPrefix(namespace, mine)) <==> owner == mine
  {
    ColonEndsOwner(mine, owner, id);
    PrefixCancels(namespace + ":", owner + ":" + id, mine + ":");
    assert Key(namespace, owner, id) == namespace + ":" + (owner + ":" + id);
    assert OwnerPrefix(namespace, mine) == namespace + ":" + (mine + ":");
  }

  /** Keys of colon-free owners never collide. */
  lemma KeysAreInjective(namespace: string, owner1: string, id1: string, owner2: string, id2: string)
    requires ColonFree(owner1) && ColonFree(owner2)
    ensures Key(namespace, owner1, id1) == Key(namespace, owner2, id2) <==> owner1 == owner2 && id1 == id2
  {
    var p1 := OwnerPrefix(namespace, owner1);
    if Key(namespace, owner1, id1) == Key(namespace, owner2, id2) {
      assert Key(namespace, owner1, id1)[..|p1|] == p1;
      ScanIsScoped(namespace, owner1, owner2, id2);
      assert Key(namespace, owner1, id1)[|p1|..] == id1;
      assert Key(namespace, owner2, id2)[|p1|..] == id2;
    }
  }

  lemma ExtensionsMeet(x: string, y: string)
    ensures (exists s :: StartsWith(x + s, y)) <==> StartsWith(x, y) || StartsWith(y, x)
    ensures (exists s, t :: x + s == y + t) <==> StartsWith(x, y) || StartsWith(y, x)
  {
    if StartsWith(x, y) {
      assert StartsWith(x + [], y) && x + [] == y + x[|y|..];
    } else if StartsWith(y, x) {
      assert x + y[|x|..] == y == y + [];
      assert StartsWith(x + y[|x|..], y);
    }
    if s :| StartsWith(x + s, y) {
      OneIsAPrefix(x, s, y, (x + s)[|y|..]);
    }
    if s, t :| x + s == y + t {
      OneIsAPrefix(x, s, y, t);
    }
  }

  lemma OneIsAPrefix(x: string, s: string, y: string, t: string)
    requires x + s == y + t
    ensures StartsWith(x, y) || StartsWith(y, x)
  {
    assert (x + s)[..|x|] == x && (y + t)[..|y|] == y;
    if |y| <= |x| {
      assert x[..|y|] == y;
    } else {
      assert y[..|x|] == x;
    }
  }

  /** One owner, followed by the separator, is how the other one begins. */
  predicate Nested(mine: string, owner: string) {
    StartsWith(owner + ":", mine + ":") || StartsWith(mine + ":", owner + ":")
  }

  /**
   * Which owners mix, exactly: the scan for one meets some key of the other, and some keys collide, if and only
   * if they nest.
   */
  lemma OwnersMixIff(namespace: string, mine: string, owner: string)
    ensures (exists id :: StartsWith(Key(namespace, owner, id), OwnerPrefix(namespace, mine))) <==> Nested(mine, owner)
    ensures (exists id, other :: Key(namespace, mine, id) == Key(namespace, owner, other)) <==> Nested(mine, owner)
  {
    var x, y := OwnerPrefix(namespace, owner), OwnerPrefix(namespace, mine);
    ExtensionsMeet(x, y);
    PrefixCancels(namespace + ":", owner + ":", mine + ":");
    PrefixCancels(namespace + ":", mine + ":", owner + ":");
    assert x == namespace + ":" + (owner + ":") && y == namespace + ":" + (mine + ":");
    forall id ensures Key(namespace, owner, id) == x + id && Key(namespace, mine, id) == y + id {
    }
    assert (exists id :: StartsWith(Key(namespace, owner, id), y)) <==> exists s :: StartsWith(x + s, y);
    if id, other :| Key(namespace, mine, id) == Key(namespace, owner, other) {
      assert x + other == y + id;
    }
    if s, t :| x + s == y + t {
      assert Key(namespace, mine, t) == Key(namespace, owner, s);
    }
  }

  /** Colons that mix owners exist: "a" is met by, and collides with, "a:b", while "a:b" and "c" stay apart. */
  lemma ColonsMixOwners(namespace: string)
    ensures Nested("a", "a:b") && !Nested("a:b", "c")
    ensures Key(namespace, "a", "b:c") == Key(namespace, "a:b", "c")
    ensures StartsWith(Key(namespace, "a:b", "c"), OwnerPrefix(namespace, "a"))
  {
    assert ("a:b" + ":")[..2] == "a" + ":";
    HeadOfPrefix("a:b" + ":", "c" + ":");
    var key := Key(namespace, "a:b", "c");
    assert key == namespace + ":a:b:c";
    assert Key(namespace, "a", "b:c") == namespace + ":a:b:c";
    assert OwnerPrefix(namespace, "a") == namespace + ":a:";
    assert key[..|namespace| + 3] == namespace + ":a:";
  }

  // ---- What the operations do to the dictionary ---------------------------------

  /** The record a reader at `now` sees under `key`. */
  function Visible<D>(slots: Slots<D>, key: string, now: real): Option<Record<D>> {
    match Find(slots, key)
    case Some(slot) => if now <= slot.expires then Some(slot.record) else None
    case None => None
  }

  /** Reading drops the record it finds expired. */
  function AfterGet<D>(slots: Slots<D>, key: string, now: real): Slots<D> {
    if Find(slots, key).Some? && Find(slots, key).value.expires < now then Drop(slots, key) else slots
  }

  /** The record a write stores: its creation time is that of the live record it replaces. */
  function Written<D>(slots: Slots<D>, key: string, owner: string, id: string, data: D, now: real): Record<D> {
    var existing := Visible(slots, key, now);
    Record(id, owner, data, if existing.Some? then existing.value.createdAt else now, now)
  }

  /** The dictionary after a write. */
  function AfterPut<D>(slots: Slots<D>, namespace: string, owner: string, id: string, data: D, now: real, ttl: real)
    : Slots<D>
  {
    var key := Key(namespace, owner, id);
    OrderedDict.Put(AfterGet(slots, key, now), key, Slot(now + ttl, Written(slots, key, owner, id, data, now)))
  }

  /** Listing sweeps every expired record out. */
  function Swept<D>(slots: Slots<D>, now: real): Slots<D> {
    if slots == [] then []
    else if slots[0].1.expires < now then Swept(slots[1..], now)
    else [slots[0]] + Swept(slots[1..], now)
  }

  /** The keys a sweep removes, in dictionary order. */
  function ExpiredKeys<D>(slots: Slots<D>, now: real): seq<string> {
    if slots == [] then []
    else if slots[0].1.expires < now then [slots[0].0] + ExpiredKeys(slots[1..], now)
    else ExpiredKeys(slots[1..], now)
  }

  function DropAll<D>(slots: Slots<D>, keys: seq<string>): Slots<D>
    decreases |keys|
  {
    if keys == [] then slots else DropAll(Drop(slots, keys[0]), keys[1..])
  }

  function Scan<D>(slots: Slots<D>, prefix: string): seq<Record<D>> {
    if slots == [] then []
    else if StartsWith(slots[0].0, prefix) then [slots[0].1.record] + Scan(slots[1..], prefix)
    else Scan(slots[1..], prefix)
  }

  function Filter<T>(s: seq<T>, keep: T -> bool): seq<T> {
    if s == [] then []
    else if keep(s[0]) then [s[0]] + Filter(s[1..], keep)
    else Filter(s[1..], keep)
  }

  /** `sort_key` and `reverse`. */
  datatype Order<!D> = Order(key: Record<D> -> real, reverse: bool)

  function NewestFirst<D>(): Order<D> {
    Order((r: Record<D>) => r.createdAt, true)
  }

  /** `x` may stand before `y`. */
  predicate Before<D>(order: Order<D>, x: Record<D>, y: Record<D>) {
    if order.reverse then order.key(x) >= order.key(y) else order.key(x) <= order.key(y)
  }

  /** Place a record after all those that may stand before it. */
  function Insert<D>(sorted: seq<Record<D>>, r: Record<D>, order: Order<D>): seq<Record<D>> {
    if sorted == [] then [r]
    else if Before(order, sorted[0], r) then [sorted[0]] + Insert(sorted[1..], r, order)
    else [r] + sorted
  }

  /** Stable sort, descending or ascending. */
  function Sorted<D>(records: seq<Record<D>>, order: Order<D>): seq<Record<D>> {
    if records == [] then []
    else Insert(Sorted(records[..|records| - 1], order), records[|records| - 1], order)
  }

  /** Where a slice bound points in a list of `n` items, counting from the end when it is negative. */
  function Bound(i: int, n: nat): nat {
    if i < 0 then Max(0, n + i) else Min(i, n)
  }

  /** `s[offset : offset + limit]` */
  function Page<T>(s: seq<T>, offset: int, limit: int): seq<T> {
    var from, to := Bound(offset, |s|), Bound(offset + limit, |s|);
    if from < to then s[from..to] else []
  }

  /** Slices as Python has them: a bound beyond either end is that end, a negative one counts from the last item. */
  lemma PageIsASlice<T>(s: seq<T>, offset: int, limit: int) returns (from: nat, to: nat)
    ensures PointsTo(offset, |s|, from) && PointsTo(offset + limit, |s|, to)
    ensures Page(s, offset, limit) == if from <= to then s[from..to] else []
  {
    from, to := Bound(offset, |s|), Bound(offset + limit, |s|);
  }

  predicate PointsTo(i: int, n: nat, at: int) {
    && 0 <= at <= n
    && (0 <= i <= n ==> at == i) && (n < i ==> at == n)
    && (0 <= n + i < n ==> at == n + i) && (n + i < 0 ==> at == 0)
  }

  function Listed<D>(slots: Slots<D>, prefix: string, keep: Record<D> -> bool, order: Order<D>, now: real)
    : seq<Record<D>>
  {
    Sorted(Filter(Scan(Swept(slots, now), prefix), keep), order)
  }

  class Store<D> {
    const namespace: string
    const ttl: real
    var memory: Slots<D>

    ghost predicate Valid()
      reads this
    {
      Distinct(memory)
    }

    constructor (namespace: string, ttl: real)
      ensures Valid() && memory == [] && this.ttl == ttl
      ensures StartsWith(namespace, this.namespace) && (this.namespace != "" ==> namespace[|this.namespace| - 1] != ':')
      ensures forall i :: |this.namespace| <= i < |namespace| ==> namespace[i] == ':'
      ensures namespace != "" && namespace[|namespace| - 1] != ':' ==> this.namespace == namespace
    {
      this.namespace, this.ttl, this.memory := WithoutColons(namespace), ttl, [];
    }

    method Get(owner: string, id: string, now: real) returns (record: Option<Record<D>>)
      requires Valid()
      modifies this
      ensures Valid()
      ensures record == Visible(old(memory), Key(namespace, owner, id), now)
      ensures memory == AfterGet(old(memory), Key(namespace, owner, id), now)
    {
      var key := Key(namespace, owner, id);
      var entry := Find(memory, key);
      if entry.None? {
        return None;
      }
      if entry.value.expires < now {
        DropDistinct(memory, key);
        memory := Drop(memory, key);
        return None;
      }
      return Some(entry.value.record);
    }

    method Put(owner: string, id: string, data: D, now: real) returns (record: Record<D>)
      requires Valid()
      modifies this
      ensures Valid()
      ensures record == Written(old(memory), Key(namespace, owner, id), owner, id, data, now)
      ensures memory == AfterPut(old(memory), namespace, owner, id, data, now, ttl)
    {
      var key := Key(namespace, owner, id);
      var existing := Get(owner, id, now);
      record := Record(id, owner, data, if existing.Some? then existing.value.createdAt else now, now);
      PutDistinct(memory, key, Slot(now + ttl, record));
      memory := OrderedDict.Put(memory, key, Slot(now + ttl, record));
    }

    method Delete(owner: string, id: string) returns (existed: bool)
      requires Valid()
      modifies this
      ensures Valid()
      ensures existed == Find(old(memory), Key(namespace, owner, id)).Some?
      ensures memory == Drop(old(memory), Key(namespace, owner, id))
    {
      var key := Key(namespace, owner, id);
      existed := Find(memory, key).Some?;
      DropDistinct(memory, key);
      memory := Drop(memory, key);
    }

    method ListForOwner(owner: string, limit: int, offset: int, keep: Record<D> -> bool, order: Order<D>, now: real)
      returns (page: seq<Record<D>>)
      requires Valid()
      modifies this
      ensures Valid()
      ensures memory == Swept(old(memory), now)
      ensures page == Page(Listed(old(memory), OwnerPrefix(namespace, owner), keep, order, now), offset, limit)
    {
      var expired := ExpiredKeys(memory, now);
      var i := 0;
      while i < |expired|
        invariant 0 <= i <= |expired| && Valid()
        invariant DropAll(memory, expired[i..]) == DropAll(old(memory), expired)
      {
        DropDistinct(memory, expired[i]);
        assert expired[i..][1..] == expired[i + 1..];
        memory := Drop(memory, expired[i]);
        i := i + 1;
      }
      SweepIsDropAll(old(memory), now);
      page := Page(Sorted(Filter(Scan(memory, OwnerPrefix(namespace, owner)), keep), order), offset, limit);
    }
  }

  lemma {:induction false} SweptMembers<D>(slots: Slots<D>, now: real, x: (string, Slot<D>))
    ensures x in Swept(slots, now) <==> x in slots && now <= x.1.expires
  {
    if slots != [] {
      SweptMembers(slots[1..], now, x);
      assert slots == [slots[0]] + slots[1..];
    }
  }

  lemma {:induction false} SweptDistinct<D>(slots: Slots<D>, now: real)
    requires Distinct(slots)
    ensures Distinct(Swept(slots, now))
  {
    if slots != [] {
      SweptDistinct(slots[1..], now);
      var rest := Swept(slots[1..], now);
      forall j | 0 <= j < |rest| ensures rest[j].0 != slots[0].0 {
        SweptMembers(slots[1..], now, rest[j]);
        var i :| 0 <= i < |slots[1..]| && slots[1..][i] == rest[j];
        assert slots[i + 1] == rest[j];
      }
    }
  }

  lemma {:induction false} ExpiredKeysAreThere<D>(slots: Slots<D>, now: real, k: string)
    requires k in ExpiredKeys(slots, now)
    ensures exists i :: 0 <= i < |slots| && slots[i].0 == k
  {
    if slots[0].0 == k {
    } else {
      assert k in ExpiredKeys(slots[1..], now);
      ExpiredKeysAreThere(slots[1..], now, k);
      var i :| 0 <= i < |slots[1..]| && slots[1..][i].0 == k;
      assert slots[i + 1].0 == k;
    }
  }

  lemma {:induction false} DropAllSkipsHead<D>(head: (string, Slot<D>), tail: Slots<D>, keys: seq<string>)
    requires head.0 !in keys
    ensures DropAll([head] + tail, keys) == [head] + DropAll(tail, keys)
    decreases |keys|
  {
    if keys != [] {
      assert ([head] + tail)[1..] == tail;
      DropAllSkipsHead(head, Drop(tail, keys[0]), keys[1..]);
    }
  }

  lemma {:induction false} SweepIsDropAll<D>(slots: Slots<D>, now: real)
    requires Distinct(slots)
    ensures DropAll(slots, ExpiredKeys(slots, now)) == Swept(slots, now)
  {
    if slots != [] {
      SweepIsDropAll(slots[1..], now);
      if slots[0].1.expires < now {
        assert ExpiredKeys(slots, now)[1..] == ExpiredKeys(slots[1..], now);
      } else {
        forall k | k in ExpiredKeys(slots[1..], now) ensures k != slots[0].0 {
          ExpiredKeysAreThere(slots[1..], now, k);
          var i :| 0 <= i < |slots[1..]| && slots[1..][i].0 == k;
          assert slots[i + 1].0 == k;
        }
        DropAllSkipsHead(slots[0], slots[1..], ExpiredKeys(slots[1..], now));
        assert slots == [slots[0]] + slots[1..];
      }
    }
  }

  // ---- The store as a map from (owner, id) to expiring records --------------------

  type Table<D> = map<(string, string), Slot<D>>

  /** Dictionary and map hold the same records, each under its own key and a colon-free owner. */
  ghost predicate Represents<D>(slots: Slots<D>, namespace: string, m: Table<D>) {
    && Distinct(slots)
    && (forall x :: x in slots ==>
      var r := x.1.record;
      ColonFree(r.owner) && x.0 == Key(namespace, r.owner, r.id) && (r.owner, r.id) in m && m[(r.owner, r.id)] == x.1)
    && (forall c :: c in m ==>
      m[c].record.owner == c.0 && m[c].record.id == c.1 && (Key(namespace, c.0, c.1), m[c]) in slots)
  }

  function Alive<D>(m: Table<D>, owner: string, id: string, now: real): Option<Record<D>> {
    if (owner, id) in m && now <= m[(owner, id)].expires then Some(m[(owner, id)].record) else None
  }

  /** A colon-free owner reads its own live record of that id and nothing else. */
  lemma GetRefines<D>(slots: Slots<D>, namespace: string, m: Table<D>, owner: string, id: string, now: real)
    requires Represents(slots, namespace, m) && ColonFree(owner)
    ensures Visible(slots, Key(namespace, owner, id), now) == Alive(m, owner, id, now)
    ensures Find(slots, Key(namespace, owner, id)).Some? <==> (owner, id) in m
  {
    var key := Key(namespace, owner, id);
    if (owner, id) in m {
      FindIsMember(slots, key, m[(owner, id)]);
    } else if Find(slots, key).Some? {
      FindIsMember(slots, key, Find(slots, key).value);
      var r := Find(slots, key).value.record;
      KeysAreInjective(namespace, owner, id, r.owner, r.id);
    }
  }

  /** Deleting removes that record from the map and touches no other owner or id. */
  lemma DeleteRefines<D>(slots: Slots<D>, namespace: string, m: Table<D>, owner: string, id: string)
    requires Represents(slots, namespace, m) && ColonFree(owner)
    ensures Represents(Drop(slots, Key(namespace, owner, id)), namespace, m - {(owner, id)})
  {
    var key := Key(namespace, owner, id);
    DropDistinct(slots, key);
    forall x | x in Drop(slots, key)
      ensures x in slots && (x.1.record.owner, x.1.record.id) in m - {(owner, id)}
    {
      DropMembers(slots, key, x);
    }
    forall c | c in m - {(owner, id)}
      ensures (Key(namespace, c.0, c.1), m[c]) in Drop(slots, key)
    {
      assert ColonFree(c.0);
      KeysAreInjective(namespace, c.0, c.1, owner, id);
      DropMembers(slots, key, (Key(namespace, c.0, c.1), m[c]));
    }
  }

  /** Reading drops the entry it finds expired. */
  function AfterRead<D>(m: Table<D>, owner: string, id: string, now: real): Table<D> {
    if (owner, id) in m && m[(owner, id)].expires < now then m - {(owner, id)} else m
  }

  lemma ReadRefines<D>(slots: Slots<D>, namespace: string, m: Table<D>, owner: string, id: string, now: real)
    requires Represents(slots, namespace, m) && ColonFree(owner)
    ensures Represents(AfterGet(slots, Key(namespace, owner, id), now), namespace, AfterRead(m, owner, id, now))
  {
    GetRefines(slots, namespace, m, owner, id, now);
    DeleteRefines(slots, namespace, m, owner, id);
  }

  function LiveOnly<D>(m: Table<D>, now: real): Table<D> {
    map c | c in m && now <= m[c].expires :: m[c]
  }

  /** A sweep removes what has expired and nothing else. */
  lemma SweepRefines<D>(slots: Slots<D>, namespace: string, m: Table<D>, now: real)
    requires Represents(slots, namespace, m)
    ensures Represents(Swept(slots, now), namespace, LiveOnly(m, now))
  {
    SweptDistinct(slots, now);
    var live := LiveOnly(m, now);
    forall x | x in Swept(slots, now)
      ensures var r := x.1.record;
        && ColonFree(r.owner) && x.0 == Key(namespace, r.owner, r.id)
        && (r.owner, r.id) in live && live[(r.owner, r.id)] == x.1
    {
      SweptMembers(slots, now, x);
    }
    forall c | c in live
      ensures live[c].record.owner == c.0 && live[c].record.id == c.1
      ensures (Key(namespace, c.0, c.1), live[c]) in Swept(slots, now)
    {
      SweptMembers(slots, now, (Key(namespace, c.0, c.1), m[c]));
    }
  }

  /** The map after a write. */
  function PutInto<D>(m: Table<D>, owner: string, id: string, data: D, now: real, ttl: real): Table<D> {
    var existing := Alive(m, owner, id, now);
    var createdAt := if existing.Some? then existing.value.createdAt else now;
    m[(owner, id) := Slot(now + ttl, Record(id, owner, data, createdAt, now))]
  }

  /** Writing replaces that record only; `createdAt` survives while the old record is alive. */
  lemma PutRefines<D>(slots: Slots<D>, namespace: string, m: Table<D>,
                      owner: string, id: string, data: D, now: real, ttl: real)
    requires Represents(slots, namespace, m) && ColonFree(owner)
    ensures Represents(AfterPut(slots, namespace, owner, id, data, now, ttl), namespace,
                       PutInto(m, owner, id, data, now, ttl))
  {
    var key := Key(namespace, owner, id);
    GetRefines(slots, namespace, m, owner, id, now);
    var slot := Slot(now + ttl, Written(slots, key, owner, id, data, now));
    var read := AfterGet(slots, key, now);
    DropDistinct(slots, key);
    PutDistinct(read, key, slot);
    forall x ensures x in OrderedDict.Put(read, key, slot) <==> x == (key, slot) || (x in slots && x.0 != key) {
      DropMembers(slots, key, x);
      PutMembers(read, key, slot, x);
    }
    PutRepresents(slots, OrderedDict.Put(read, key, slot), namespace, m, owner, id, slot);
  }

  lemma PutRepresents<D>(slots: Slots<D>, after: Slots<D>, namespace: string, m: Table<D>,
                         owner: string, id: string, slot: Slot<D>)
    requires Represents(slots, namespace, m) && ColonFree(owner) && Distinct(after)
    requires slot.record.owner == owner && slot.record.id == id
    requires var key := Key(namespace, owner, id);
      forall x :: x in after <==> x == (key, slot) || (x in slots && x.0 != key)
    ensures Represents(after, namespace, m[(owner, id) := slot])
  {
    forall c | c in m && c != (owner, id) ensures Key(namespace, c.0, c.1) != Key(namespace, owner, id) {
      assert ColonFree(c.0);
      KeysAreInjective(namespace, c.0, c.1, owner, id);
    }
  }

  lemma {:induction false} ScanMembers<D>(slots: Slots<D>, prefix: string, r: Record<D>)
    ensures r in Scan(slots, prefix) <==> exists x :: x in slots && StartsWith(x.0, prefix) && x.1.record == r
  {
    if slots != [] {
      ScanMembers(slots[1..], prefix, r);
      assert slots == [slots[0]] + slots[1..];
      assert slots[0] in slots;
    }
  }

  lemma {:induction false} FilterMembers<T>(s: seq<T>, keep: T -> bool, x: T)
    ensures x in Filter(s, keep) <==> x in s && keep(x)
  {
    if s != [] {
      FilterMembers(s[1..], keep, x);
      assert s == [s[0]] + s[1..];
    }
  }

  lemma {:induction false} InsertKeeps<D>(sorted: seq<Record<D>>, r: Record<D>, order: Order<D>)
    ensures multiset(Insert(sorted, r, order)) == multiset(sorted) + multiset{r}
  {
    if sorted != [] {
      assert sorted == [sorted[0]] + sorted[1..];
      if Before(order, sorted[0], r) {
        InsertKeeps(sorted[1..], r, order);
      }
    }
  }

  /** Sorting loses and duplicates nothing. */
  lemma {:induction false} SortingKeeps<D>(records: seq<Record<D>>, order: Order<D>)
    ensures multiset(Sorted(records, order)) == multiset(records)
  {
    if records != [] {
      var front, last := records[..|records| - 1], records[|records| - 1];
      SortingKeeps(front, order);
      InsertKeeps(Sorted(front, order), last, order);
      assert records == front + [last];
    }
  }

  /** Listing shows exactly the owner's live records that pass the filter: it agrees with reading. */
  lemma ListAgreesWithGet<D>(slots: Slots<D>, namespace: string, m: Table<D>, owner: string,
                             keep: Record<D> -> bool, order: Order<D>, now: real, r: Record<D>)
    requires Represents(slots, namespace, m) && ColonFree(owner)
    ensures r in Listed(slots, OwnerPrefix(namespace, owner), keep, order, now)
       <==> keep(r) && r.owner == owner && Visible(slots, Key(namespace, owner, r.id), now) == Some(r)
  {
    var swept, prefix := Swept(slots, now), OwnerPrefix(namespace, owner);
    var scanned := Scan(swept, prefix);
    SortingKeeps(Filter(scanned, keep), order);
    assert r in Listed(slots, prefix, keep, order, now) <==> r in multiset(Filter(scanned, keep));
    FilterMembers(scanned, keep, r);
    ScanMembers(swept, prefix, r);
    GetRefines(slots, namespace, m, owner, r.id, now);
    forall x ensures x in swept <==> x in slots && now <= x.1.expires {
      SweptMembers(slots, now, x);
    }
    forall x | x in slots ensures StartsWith(x.0, prefix) <==> x.1.record.owner == owner {
      ScanIsScoped(namespace, owner, x.1.record.owner, x.1.record.id);
    }
    if Alive(m, owner, r.id, now) == Some(r) {
      assert (Key(namespace, owner, r.id), m[(owner, r.id)]) in swept;
    }
  }

  // ---- Order and pages --------------------------------------------------------------

  ghost predicate InOrder<D>(records: seq<Record<D>>, order: Order<D>) {
    forall i, j :: 0 <= i < j < |records| ==> Before(order, records[i], records[j])
  }

  /** The records with sort key `at`, in order. */
  function WithKey<D>(records: seq<Record<D>>, order: Order<D>, at: real): seq<Record<D>> {
    if records == [] then []
    else if order.key(records[0]) == at then [records[0]] + WithKey(records[1..], order, at)
    else WithKey(records[1..], order, at)
  }

  lemma {:induction false} InsertSorts<D>(sorted: seq<Record<D>>, r: Record<D>, order: Order<D>)
    requires InOrder(sorted, order)
    ensures InOrder(Insert(sorted, r, order), order)
    ensures forall i :: 0 <= i < |Insert(sorted, r, order)| ==>
      Insert(sorted, r, order)[i] == r || Insert(sorted, r, order)[i] in sorted
  {
    if sorted != [] && Before(order, sorted[0], r) {
      InsertSorts(sorted[1..], r, order);
    }
  }

  lemma {:induction false} InsertIsStable<D>(sorted: seq<Record<D>>, r: Record<D>, order: Order<D>, at: real)
    requires InOrder(sorted, order)
    ensures WithKey(Insert(sorted, r, order), order, at) ==
      WithKey(sorted, order, at) + if order.key(r) == at then [r] else []
  {
    if sorted != [] && Before(order, sorted[0], r) {
      InsertIsStable(sorted[1..], r, order, at);
      assert Insert(sorted, r, order)[1..] == Insert(sorted[1..], r, order);
    } else {
      assert Insert(sorted, r, order)[1..] == sorted;
      if order.key(r) == at {
        NoneWithKey(sorted, order, at);
      }
    }
  }

  lemma {:induction false} NoneWithKey<D>(records: seq<Record<D>>, order: Order<D>, at: real)
    requires forall i :: 0 <= i < |records| ==> order.key(records[i]) != at
    ensures WithKey(records, order, at) == []
  {
    if records != [] {
      NoneWithKey(records[1..], order, at);
    }
  }

  lemma {:induction false} WithKeyAppend<D>(records: seq<Record<D>>, r: Record<D>, order: Order<D>, at: real)
    ensures WithKey(records + [r], order, at) == WithKey(records, order, at) + if order.key(r) == at then [r] else []
  {
    if records != [] {
      assert (records + [r])[1..] == records[1..] + [r];
      WithKeyAppend(records[1..], r, order, at);
    } else {
      assert (records + [r])[1..] == [];
    }
  }

  /**
   * A listing is in the order asked for, and records with equal sort keys keep their stored order, descending or
   * not.
   */
  lemma {:induction false} SortingSorts<D>(records: seq<Record<D>>, order: Order<D>)
    ensures InOrder(Sorted(records, order), order)
    ensures forall at :: WithKey(Sorted(records, order), order, at) == WithKey(records, order, at)
  {
    if records != [] {
      var n := |records| - 1;
      SortingSorts(records[..n], order);
      InsertSorts(Sorted(records[..n], order), records[n], order);
      forall at ensures WithKey(Sorted(records, order), order, at) == WithKey(records, order, at) {
        InsertIsStable(Sorted(records[..n], order), records[n], order, at);
        WithKeyAppend(records[..n], records[n], order, at);
        assert records == records[..n] + [records[n]];
      }
    }
  }

  /** In terms of the sort keys: they fall or rise as asked, and by default the newest records come first. */
  lemma ListingsFallOrRise<D>(slots: Slots<D>, prefix: string, keep: Record<D> -> bool, order: Order<D>, now: real,
                              i: nat, j: nat)
    ensures var listed := Listed(slots, prefix, keep, order, now); i < j < |listed| ==>
      && (order.reverse ==> order.key(listed[i]) >= order.key(listed[j]))
      && (!order.reverse ==> order.key(listed[i]) <= order.key(listed[j]))
    ensures var newest := Listed(slots, prefix, keep, NewestFirst(), now); i < j < |newest| ==>
      newest[i].createdAt >= newest[j].createdAt
  {
    SortingSorts(Filter(Scan(Swept(slots, now), prefix), keep), order);
    SortingSorts(Filter(Scan(Swept(slots, now), prefix), keep), NewestFirst());
    assert i < j < |Listed(slots, prefix, keep, order, now)| ==>
      Before(order, Listed(slots, prefix, keep, order, now)[i], Listed(slots, prefix, keep, order, now)[j]);
    assert i < j < |Listed(slots, prefix, keep, NewestFirst(), now)| ==>
      Before(NewestFirst(), Listed(slots, prefix, keep, NewestFirst(), now)[i],
             Listed(slots, prefix, keep, NewestFirst(), now)[j]);
  }

  /** The first `n` pages of size `limit`, one after the other. */
  function Pages<T>(s: seq<T>, limit: nat, n: nat): seq<T> {
    if n == 0 then [] else Pages(s, limit, n - 1) + Page(s, (n - 1) * limit, limit)
  }

  lemma OneMorePage(limit: nat, n: nat)
    requires n > 0
    ensures 0 <= (n - 1) * limit && n * limit == (n - 1) * limit + limit
  {
  }

  /** Consecutive pages are the list: nothing repeated, nothing skipped. */
  lemma {:induction false} PagesConcatenate<T>(s: seq<T>, limit: nat, n: nat)
    ensures Pages(s, limit, n) == Take(s, n * limit)
  {
    if n > 0 {
      PagesConcatenate(s, limit, n - 1);
      OneMorePage(limit, n);
      TakeInTwo(s, (n - 1) * limit, limit);
    }
  }

  lemma TakeInTwo<T>(s: seq<T>, offset: nat, limit: nat)
    ensures Take(s, offset) + Page(s, offset, limit) == Take(s, offset + limit)
  {
  }

  // ---- Listings hold every record once ------------------------------------------------

  ghost predicate UniqueIds<D>(records: seq<Record<D>>) {
    forall i, j :: 0 <= i < j < |records| ==> records[i].id != records[j].id
  }

  ghost predicate Keyed<D>(slots: Slots<D>, namespace: string) {
    forall x :: x in slots ==> ColonFree(x.1.record.owner) && x.0 == Key(namespace, x.1.record.owner, x.1.record.id)
  }

  lemma {:induction false} ScanUnique<D>(slots: Slots<D>, namespace: string, owner: string)
    requires Distinct(slots) && Keyed(slots, namespace) && ColonFree(owner)
    ensures UniqueIds(Scan(slots, OwnerPrefix(namespace, owner)))
  {
    if slots != [] {
      var prefix, head := OwnerPrefix(namespace, owner), slots[0];
      assert forall x :: x in slots[1..] ==> x in slots;
      ScanUnique(slots[1..], namespace, owner);
      if StartsWith(head.0, prefix) {
        assert head in slots;
        ScanIsScoped(namespace, owner, head.1.record.owner, head.1.record.id);
        forall r | r in Scan(slots[1..], prefix) ensures r.id != head.1.record.id {
          ScanMembers(slots[1..], prefix, r);
          var x :| x in slots[1..] && StartsWith(x.0, prefix) && x.1.record == r;
          ScanIsScoped(namespace, owner, r.owner, r.id);
          var i :| 0 <= i < |slots[1..]| && slots[1..][i] == x;
          assert slots[i + 1] == x;
        }
      }
    }
  }

  lemma {:induction false} FilterUnique<D>(records: seq<Record<D>>, keep: Record<D> -> bool)
    requires UniqueIds(records)
    ensures UniqueIds(Filter(records, keep))
  {
    if records != [] {
      FilterUnique(records[1..], keep);
      forall r | r in Filter(records[1..], keep) ensures r.id != records[0].id {
        FilterMembers(records[1..], keep, r);
        var i :| 0 <= i < |records[1..]| && records[1..][i] == r;
        assert records[i + 1] == r;
      }
    }
  }

  lemma {:induction false} InsertUnique<D>(sorted: seq<Record<D>>, r: Record<D>, order: Order<D>)
    requires UniqueIds(sorted) && forall i :: 0 <= i < |sorted| ==> sorted[i].id != r.id
    ensures UniqueIds(Insert(sorted, r, order))
    ensures forall i :: 0 <= i < |Insert(sorted, r, order)| ==>
      Insert(sorted, r, order)[i] == r || Insert(sorted, r, order)[i] in sorted
  {
    if sorted != [] && Before(order, sorted[0], r) {
      InsertUnique(sorted[1..], r, order);
      var rest := Insert(sorted[1..], r, order);
      forall j | 0 <= j < |rest| ensures rest[j].id != sorted[0].id {
        if rest[j] != r {
          var i :| 0 <= i < |sorted[1..]| && sorted[1..][i] == rest[j];
          assert sorted[i + 1] == rest[j];
        }
      }
    }
  }

  lemma {:induction false} SortedUnique<D>(records: seq<Record<D>>, order: Order<D>)
    requires UniqueIds(records)
    ensures UniqueIds(Sorted(records, order))
  {
    if records != [] {
      var front, last := records[..|records| - 1], records[|records| - 1];
      SortedUnique(front, order);
      SortingKeeps(front, order);
      forall i | 0 <= i < |Sorted(front, order)| ensures Sorted(front, order)[i].id != last.id {
        assert Sorted(front, order)[i] in multiset(front);
        var k :| 0 <= k < |front| && front[k] == Sorted(front, order)[i];
        assert records[k] == front[k];
      }
      InsertUnique(Sorted(front, order), last, order);
    }
  }

  /** No record appears twice in a listing. */
  lemma ListedUnique<D>(slots: Slots<D>, namespace: string, m: Table<D>, owner: string,
                        keep: Record<D> -> bool, order: Order<D>, now: real)
    requires Represents(slots, namespace, m) && ColonFree(owner)
    ensures UniqueIds(Listed(slots, OwnerPrefix(namespace, owner), keep, order, now))
  {
    var swept := Swept(slots, now);
    SweptDistinct(slots, now);
    forall x | x in swept ensures x in slots {
      SweptMembers(slots, now, x);
    }
    ScanUnique(swept, namespace, owner);
    FilterUnique(Scan(swept, OwnerPrefix(namespace, owner)), keep);
    SortedUnique(Filter(Scan(swept, OwnerPrefix(namespace, owner)), keep), order);
  }

  function Ids<D>(records: seq<Record<D>>): set<string> {
    set i | 0 <= i < |records| :: records[i].id
  }

  lemma {:induction false} UniqueIdsCount<D>(records: seq<Record<D>>)
    requires UniqueIds(records)
    ensures |Ids(records)| == |records|
  {
    if records != [] {
      var front, last := records[..|records| - 1], records[|records| - 1];
      UniqueIdsCount(front);
      assert Ids(records) == Ids(front) + {last.id};
    }
  }
}

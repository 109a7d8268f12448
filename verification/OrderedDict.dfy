/** Insertion-ordered dictionaries, as sequences of key-value pairs. */
module OrderedDict {
  import opened Prelude

  type Items<K, V> = seq<(K, V)>

  function Find<K(==), V>(items: Items<K, V>, k: K): Option<V> {
    if items == [] then None
    else if items[0].0 == k then Some(items[0].1)
    else Find(items[1..], k)
  }

  /** Assignment: an existing key keeps its place, a new one goes to the end. */
  function Put<K(==), V>(items: Items<K, V>, k: K, v: V): Items<K, V> {
    if items == [] then [(k, v)]
    else if items[0].0 == k then [(k, v)] + items[1..]
    else [items[0]] + Put(items[1..], k, v)
  }

  /** Deletion of a key, if present. */
  function Drop<K(==), V>(items: Items<K, V>, k: K): Items<K, V> {
    if items == [] then []
    else if items[0].0 == k then items[1..]
    else [items[0]] + Drop(items[1..], k)
  }

  ghost predicate Distinct<K, V>(items: Items<K, V>) {
    forall i, j :: 0 <= i < j < |items| ==> items[i].0 != items[j].0
  }

  lemma {:induction false} Absent<K, V>(items: Items<K, V>, k: K)
    requires forall i :: 0 <= i < |items| ==> items[i].0 != k
    ensures Find(items, k).None?
  {
    if items != [] {
      Absent(items[1..], k);
    }
  }

  lemma {:induction false} FindAfterPut<K, V>(items: Items<K, V>, k: K, v: V, other: K)
    ensures Find(Put(items, k, v), other) == if other == k then Some(v) else Find(items, other)
  {
    if items != [] && items[0].0 != k {
      FindAfterPut(items[1..], k, v, other);
      assert Put(items, k, v)[1..] == Put(items[1..], k, v);
    } else if items != [] {
      assert Put(items, k, v)[1..] == items[1..];
    } else {
      assert Put(items, k, v)[1..] == [];
    }
  }

  lemma {:induction false} PutKeys<K, V>(items: Items<K, V>, k: K, v: V)
    ensures var after := Put(items, k, v);
      && |items| <= |after| <= |items| + 1
      && (forall i :: 0 <= i < |items| ==> after[i].0 == items[i].0)
      && (forall i :: 0 <= i < |items| && items[i].0 != k ==> after[i] == items[i])
      && (|after| == |items| + 1 ==> after[|items|] == (k, v) && forall i :: 0 <= i < |items| ==> items[i].0 != k)
  {
    if items != [] && items[0].0 != k {
      PutKeys(items[1..], k, v);
    }
  }

  lemma PutDistinct<K, V>(items: Items<K, V>, k: K, v: V)
    requires Distinct(items)
    ensures Distinct(Put(items, k, v))
  {
    PutKeys(items, k, v);
  }

  lemma {:induction false} FindAfterDrop<K, V>(items: Items<K, V>, k: K, other: K)
    requires Distinct(items)
    ensures Find(Drop(items, k), other) == if other == k then None else Find(items, other)
  {
    if items != [] {
      if items[0].0 == k {
        forall i | 0 <= i < |items[1..]| ensures items[1..][i].0 != k {
          assert items[1..][i] == items[i + 1];
        }
        Absent(items[1..], k);
      } else {
        FindAfterDrop(items[1..], k, other);
        assert Drop(items, k)[1..] == Drop(items[1..], k);
      }
    }
  }

  lemma {:induction false} DropMembers<K, V>(items: Items<K, V>, k: K, x: (K, V))
    requires Distinct(items)
    ensures x in Drop(items, k) <==> x in items && x.0 != k
  {
    if items != [] {
      assert items == [items[0]] + items[1..];
      if items[0].0 == k {
        if x in items[1..] {
          var i :| 0 <= i < |items[1..]| && items[1..][i] == x;
          assert items[i + 1] == x;
        }
      } else {
        DropMembers(items[1..], k, x);
      }
    }
  }

  lemma {:induction false} DropDistinct<K, V>(items: Items<K, V>, k: K)
    requires Distinct(items)
    ensures Distinct(Drop(items, k))
  {
    if items != [] && items[0].0 != k {
      DropDistinct(items[1..], k);
      var rest := Drop(items[1..], k);
      forall j | 0 <= j < |rest| ensures rest[j].0 != items[0].0 {
        DropMembers(items[1..], k, rest[j]);
        assert rest[j] in items[1..];
        var i :| 0 <= i < |items[1..]| && items[1..][i] == rest[j];
        assert items[i + 1] == rest[j];
      }
    }
  }

  lemma {:induction false} PutMembers<K, V>(items: Items<K, V>, k: K, v: V, x: (K, V))
    requires Distinct(items)
    ensures x in Put(items, k, v) <==> x == (k, v) || (x in items && x.0 != k)
  {
    if items != [] {
      assert items == [items[0]] + items[1..];
      if items[0].0 == k {
        if x in items[1..] {
          var i :| 0 <= i < |items[1..]| && items[1..][i] == x;
          assert items[i + 1] == x;
        }
      } else {
        PutMembers(items[1..], k, v, x);
      }
    }
  }

  lemma FindIsMember<K, V>(items: Items<K, V>, k: K, v: V)
    requires Distinct(items)
    ensures Find(items, k) == Some(v) <==> (k, v) in items
  {
  }
}

/**
 * What flattening and unflattening do to any dictionary, reversible or not, told by looking paths up.
 */
module NestedLookup {
  import opened Prelude
  import opened NestedDict
  import OD = OrderedDict

  type Path = seq<string>

  /** What a path leads to. */
  function Lookup<V>(items: Items<V>, path: Path): Option<Tree<V>>
    requires path != []
    decreases |path|
  {
    if path[0] !in Keys(items) then None
    else
      var t := Get(items, path[0]);
      if |path| == 1 then Some(t) else if t.Leaf? then None else Lookup(t.items, path[1..])
  }

  predicate LeafAt<V(==)>(items: Items<V>, path: Path, v: V)
    requires path != []
  {
    Lookup(items, path) == Some(Leaf(v))
  }

  /** The path leads through a leaf. */
  ghost predicate ThroughLeaf<V>(items: Items<V>, path: Path) {
    exists n :: 0 < n < |path| && Lookup(items, path[..n]).Some? && Lookup(items, path[..n]).value.Leaf?
  }

  predicate Inside(p: Path, q: Path) {
    |p| < |q| && q[..|p|] == p
  }

  // ---- One write ------------------------------------------------------------------------------------

  lemma LookupFurther<V>(items: Items<V>, path: Path, n: nat)
    requires path != [] && 1 < n <= |path| && path[0] in Keys(items) && Get(items, path[0]).Dict?
    ensures Lookup(items, path[..n]) == Lookup(Get(items, path[0]).items, path[1..][..n - 1])
  {
    assert path[..n][1..] == path[1..][..n - 1];
  }

  lemma ThroughFurther<V>(items: Items<V>, path: Path)
    requires |path| > 1 && path[0] in Keys(items) && Get(items, path[0]).Dict?
    ensures ThroughLeaf(items, path) <==> ThroughLeaf(Get(items, path[0]).items, path[1..])
  {
    var inner := Get(items, path[0]).items;
    if ThroughLeaf(items, path) {
      var n :| 0 < n < |path| && Lookup(items, path[..n]).Some? && Lookup(items, path[..n]).value.Leaf?;
      if n > 1 {
        LookupFurther(items, path, n);
        assert 0 < n - 1 < |path[1..]|;
      }
    }
    if ThroughLeaf(inner, path[1..]) {
      var n :| 0 < n < |path[1..]| && Lookup(inner, path[1..][..n]).Some? && Lookup(inner, path[1..][..n]).value.Leaf?;
      LookupFurther(items, path, n + 1);
    }
  }

  lemma NothingThroughEmpty<V>(path: Path)
    ensures !ThroughLeaf<V>(Empty, path)
  {
  }

  /** Writing fails exactly on a path that leads through a leaf. */
  lemma {:induction false} SetFailsIff<V>(items: Items<V>, path: Path, v: V)
    requires path != []
    ensures SetPath(items, path, v).Err? <==> ThroughLeaf(items, path)
    decreases |path|
  {
    if |path| > 1 {
      if path[0] !in Keys(items) {
        SetFailsIff(Empty, path[1..], v);
        NothingThroughEmpty<V>(path[1..]);
        assert forall n :: 0 < n < |path| ==> path[..n][0] == path[0];
      } else if Get(items, path[0]).Dict? {
        SetFailsIff(Get(items, path[0]).items, path[1..], v);
        ThroughFurther(items, path);
      } else {
        assert path[..1][0] == path[0];
      }
    }
  }

  lemma SameTail(p: Path, q: Path)
    requires p != [] && q != [] && p[0] == q[0]
    ensures p == q <==> p[1..] == q[1..]
    ensures Inside(p, q) <==> Inside(p[1..], q[1..])
  {
    assert p == [p[0]] + p[1..] && q == [q[0]] + q[1..];
    if |p| <= |q| {
      assert q[..|p|] == [q[0]] + q[1..][..|p| - 1];
    }
  }

  /** After a write its path leads to its value, and every other leaf is where it was unless it lies inside. */
  lemma {:induction false} LookupAfterSet<V>(items: Items<V>, path: Path, v: V, x: Path, u: V)
    requires path != [] && x != [] && SetPath(items, path, v).Ok?
    ensures LeafAt(SetPath(items, path, v).value, x, u) <==>
      if x == path then u == v else !Inside(path, x) && LeafAt(items, x, u)
    decreases |path|
  {
    if x[0] == path[0] {
      SameTail(path, x);
    }
    if |path| == 1 {
      AfterAssign(items, path[0], Leaf(v), x[0]);
    } else {
      var inner := if path[0] in Keys(items) then Get(items, path[0]).items else Empty;
      var r := SetPath(inner, path[1..], v).value;
      AfterAssign(items, path[0], Dict(r), x[0]);
      if x[0] == path[0] && |x| > 1 {
        LookupAfterSet(inner, path[1..], v, x[1..], u);
      }
    }
  }

  // ---- Any sequence of writes ---------------------------------------------------------------------------

  /** The writes are to paths that exist and differ. */
  ghost predicate Writes<V>(leaves: Leaves<V>) {
    Pathed(leaves) && DistinctPaths(leaves)
  }

  /** A later write leads through the leaf an earlier one has left. */
  ghost predicate Clashes<V>(leaves: Leaves<V>) {
    exists i, j :: 0 <= i < j < |leaves| && Inside(leaves[i].0, leaves[j].0)
  }

  /** Write `i` leaves its leaf: no later one replaces a dictionary around it. */
  ghost predicate Lasts<V>(leaves: Leaves<V>, i: nat) {
    i < |leaves| && forall j :: i < j < |leaves| ==> !Inside(leaves[j].0, leaves[i].0)
  }

  ghost predicate LeftBy<V>(leaves: Leaves<V>, i: nat, path: Path, v: V) {
    Lasts(leaves, i) && leaves[i] == (path, v)
  }

  ghost predicate Left<V>(leaves: Leaves<V>, path: Path, v: V) {
    exists i: nat :: LeftBy(leaves, i, path, v)
  }

  lemma BuiltOneMore<V>(leaves: Leaves<V>)
    requires leaves != [] && Pathed(leaves)
    ensures var front, last := leaves[..|leaves| - 1], leaves[|leaves| - 1];
      && Pathed(front)
      && Built(Empty, leaves) ==
         (var r := Built(Empty, front); if r.Ok? then SetPath(r.value, last.0, last.1) else r)
  {
    var front, last := leaves[..|leaves| - 1], leaves[|leaves| - 1];
    assert leaves == front + [last];
    BuiltInTwo(Empty, front, [last]);
    var r := Built(Empty, front);
    if r.Ok? {
      var step := SetPath(r.value, last.0, last.1);
      assert [last][1..] == [];
    }
  }

  lemma LastsOneMore<V>(leaves: Leaves<V>, i: nat)
    requires i < |leaves| - 1
    ensures Lasts(leaves, i) <==> Lasts(leaves[..|leaves| - 1], i) && !Inside(leaves[|leaves| - 1].0, leaves[i].0)
  {
    var front := leaves[..|leaves| - 1];
    assert forall j :: i <= j < |front| ==> front[j] == leaves[j];
  }

  lemma LeftOneMore<V>(leaves: Leaves<V>, path: Path, v: V)
    requires leaves != [] && Writes(leaves)
    ensures var front, last := leaves[..|leaves| - 1], leaves[|leaves| - 1];
      Left(leaves, path, v) <==> if path == last.0 then v == last.1 else !Inside(last.0, path) && Left(front, path, v)
  {
    var front, n := leaves[..|leaves| - 1], |leaves| - 1;
    if path == leaves[n].0 {
      assert LeftBy(leaves, n, path, leaves[n].1);
    } else {
      if Left(leaves, path, v) {
        var i: nat :| LeftBy(leaves, i, path, v);
        LastsOneMore(leaves, i);
        assert LeftBy(front, i, path, v);
      }
      if Left(front, path, v) && !Inside(leaves[n].0, path) {
        var i: nat :| LeftBy(front, i, path, v);
        LastsOneMore(leaves, i);
        assert LeftBy(leaves, i, path, v);
      }
    }
  }

  lemma InsideFurther(p: Path, q: Path, r: Path)
    requires Inside(p, q) && Inside(q, r)
    ensures Inside(p, r)
  {
    assert r[..|p|] == r[..|q|][..|p|];
  }

  /** Of the writes a path leads through, the last one still leaves its leaf. */
  lemma {:induction false} LastInside<V>(leaves: Leaves<V>, path: Path, i: nat) returns (k: nat)
    requires i < |leaves| && Inside(leaves[i].0, path)
    ensures i <= k < |leaves| && Inside(leaves[k].0, path) && Lasts(leaves, k)
    decreases |leaves| - i
  {
    if j :| i < j < |leaves| && Inside(leaves[j].0, path) {
      k := LastInside(leaves, path, j);
    } else {
      k := i;
      forall j | i < j < |leaves| && Inside(leaves[j].0, leaves[i].0) ensures false {
        InsideFurther(leaves[j].0, leaves[i].0, path);
      }
    }
  }

  /** The leaves of `items` are those that the writes leave. */
  ghost predicate Shows<V(!new)>(items: Items<V>, leaves: Leaves<V>) {
    forall path, v {:trigger Left(leaves, path, v)} :: path != [] ==>
      (LeafAt(items, path, v) <==> Left(leaves, path, v))
  }

  ghost predicate ThroughSome<V>(leaves: Leaves<V>, path: Path) {
    exists i: nat :: i < |leaves| && Inside(leaves[i].0, path)
  }

  lemma ThroughLeafIsSome<V(!new)>(items: Items<V>, leaves: Leaves<V>, path: Path)
    requires Shows(items, leaves) && ThroughLeaf(items, path)
    ensures ThroughSome(leaves, path)
  {
    var n :| 0 < n < |path| && Lookup(items, path[..n]).Some? && Lookup(items, path[..n]).value.Leaf?;
    var u := Lookup(items, path[..n]).value.value;
    assert LeafAt(items, path[..n], u) && Left(leaves, path[..n], u);
    var i: nat :| LeftBy(leaves, i, path[..n], u);
    assert Inside(leaves[i].0, path);
  }

  lemma SomeIsThroughLeaf<V(!new)>(items: Items<V>, leaves: Leaves<V>, path: Path)
    requires Shows(items, leaves) && Pathed(leaves) && ThroughSome(leaves, path)
    ensures ThroughLeaf(items, path)
  {
    var i: nat :| i < |leaves| && Inside(leaves[i].0, path);
    var k := LastInside(leaves, path, i);
    var p, u := leaves[k].0, leaves[k].1;
    assert LeftBy(leaves, k, p, u) && Left(leaves, p, u);
    assert LeafAt(items, p, u) && path[..|p|] == p;
  }

  lemma ClashesOneMore<V>(leaves: Leaves<V>)
    requires leaves != []
    ensures var front, last := leaves[..|leaves| - 1], leaves[|leaves| - 1];
      Clashes(leaves) <==> Clashes(front) || ThroughSome(front, last.0)
  {
    var front := leaves[..|leaves| - 1];
    assert forall i :: 0 <= i < |front| ==> front[i] == leaves[i];
    if Clashes(front) {
      var i, j :| 0 <= i < j < |front| && Inside(front[i].0, front[j].0);
      assert Inside(leaves[i].0, leaves[j].0);
    }
    if Clashes(leaves) {
      var i, j :| 0 <= i < j < |leaves| && Inside(leaves[i].0, leaves[j].0);
      if j < |front| {
        assert Inside(front[i].0, front[j].0);
      }
    }
    if i: nat :| i < |front| && Inside(front[i].0, leaves[|leaves| - 1].0) {
      assert Inside(leaves[i].0, leaves[|leaves| - 1].0);
    }
  }

  /**
   * Writing leaves one after the other fails exactly when some write leads through an earlier one; otherwise the
   * leaves of the result are those writes that no later one has replaced a dictionary around.
   */
  lemma {:induction false} BuiltIff<V(!new)>(leaves: Leaves<V>)
    requires Writes(leaves)
    ensures Built(Empty, leaves).Err? <==> Clashes(leaves)
    ensures Built(Empty, leaves).Ok? ==> Shows(Built(Empty, leaves).value, leaves)
    decreases |leaves|
  {
    if leaves == [] {
      assert forall path, v :: !Left(leaves, path, v);
    } else {
      var front, last := leaves[..|leaves| - 1], leaves[|leaves| - 1];
      BuiltOneMore(leaves);
      ClashesOneMore(leaves);
      BuiltIff(front);
      var r := Built(Empty, front);
      if r.Ok? {
        SetFailsIff(r.value, last.0, last.1);
        if ThroughLeaf(r.value, last.0) {
          ThroughLeafIsSome(r.value, front, last.0);
        } else {
          if ThroughSome(front, last.0) {
            SomeIsThroughLeaf(r.value, front, last.0);
          }
          ShowsOneMore(r.value, leaves);
        }
      }
    }
  }

  lemma ShowsOneMore<V(!new)>(items: Items<V>, leaves: Leaves<V>)
    requires leaves != [] && Writes(leaves) && Shows(items, leaves[..|leaves| - 1])
    requires SetPath(items, leaves[|leaves| - 1].0, leaves[|leaves| - 1].1).Ok?
    ensures Shows(SetPath(items, leaves[|leaves| - 1].0, leaves[|leaves| - 1].1).value, leaves)
  {
    var front, last := leaves[..|leaves| - 1], leaves[|leaves| - 1];
    var after := SetPath(items, last.0, last.1).value;
    forall path: Path, v | path != [] ensures LeafAt(after, path, v) <==> Left(leaves, path, v) {
      LookupAfterSet(items, last.0, last.1, path, v);
      LeftOneMore(leaves, path, v);
      assert LeafAt(items, path, v) <==> Left(front, path, v);
    }
  }

  // ---- Unflattening any flat dictionary ----------------------------------------------------------------

  /** Splitting loses nothing: the parts join to the key. */
  lemma {:induction false} JoinUndoesSplit(s: string, sep: string)
    requires sep != ""
    ensures Join(Split(s, sep), sep) == s
    decreases |s|
  {
    if |s| < |sep| {
    } else if sep <= s {
      var rest := s[|sep|..];
      JoinUndoesSplit(rest, sep);
      assert Split(s, sep)[1..] == Split(rest, sep);
      assert s == "" + sep + rest;
    } else {
      var parts := Split(s[1..], sep);
      JoinUndoesSplit(s[1..], sep);
      LongerHeadJoins(s[0], parts, sep);
      assert s == [s[0]] + s[1..];
    }
  }

  lemma LongerHeadJoins(c: char, parts: Path, sep: string)
    requires parts != []
    ensures Join([[c] + parts[0]] + parts[1..], sep) == [c] + Join(parts, sep)
  {
    var longer := [[c] + parts[0]] + parts[1..];
    assert longer[1..] == parts[1..];
    if |parts| > 1 {
      var rest := Join(parts[1..], sep);
      assert [c] + parts[0] + sep + rest == [c] + (parts[0] + sep + rest);
    }
  }

  /** The paths that the keys of a flat dictionary are split into. */
  function PathsOf<V>(flat: Flat<V>, sep: string): Leaves<V>
    requires sep != ""
  {
    seq(|flat|, i requires 0 <= i < |flat| => (Split(flat[i].0, sep), flat[i].1))
  }

  lemma PathsAreWrites<V>(flat: Flat<V>, sep: string)
    requires sep != "" && OD.Distinct(flat)
    ensures Writes(PathsOf(flat, sep))
  {
    forall i, j | 0 <= i < j < |flat| ensures Split(flat[i].0, sep) != Split(flat[j].0, sep) {
      JoinUndoesSplit(flat[i].0, sep);
      JoinUndoesSplit(flat[j].0, sep);
    }
  }

  lemma {:induction false} UnflattenedIsBuilt<V>(items: Items<V>, flat: Flat<V>, sep: string)
    requires sep != "" && Pathed(PathsOf(flat, sep))
    ensures Unflattened(items, flat, sep) == Built(items, PathsOf(flat, sep))
    decreases |flat|
  {
    if flat != [] {
      var leaves := PathsOf(flat, sep);
      assert leaves[1..] == PathsOf(flat[1..], sep);
      var step := SetPath(items, leaves[0].0, leaves[0].1);
      if step.Ok? {
        UnflattenedIsBuilt(step.value, flat[1..], sep);
      }
    }
  }

  /**
   * Unflattening any flat dictionary fails exactly when the parts of one key begin with all the parts of an
   * earlier one; otherwise its leaves are the values at the paths of their keys, but for those that a later key,
   * with parts that begin theirs, has replaced.
   */
  lemma UnflattenIff<V(!new)>(flat: Flat<V>, sep: string)
    requires OD.Distinct(flat) && sep != ""
    ensures Unflattened(Empty, flat, sep).Err? <==> Clashes(PathsOf(flat, sep))
    ensures Unflattened(Empty, flat, sep).Ok? ==> Shows(Unflattened(Empty, flat, sep).value, PathsOf(flat, sep))
  {
    PathsAreWrites(flat, sep);
    UnflattenedIsBuilt(Empty, flat, sep);
    BuiltIff(PathsOf(flat, sep));
  }

  /** Nothing can be split by nothing. */
  lemma EmptySeparatorIsRefused<V>(flat: Flat<V>)
    ensures Unflattened(Empty, flat, "") == if flat == [] then Ok(Empty) else Err(EmptySeparator)
  {
  }

  // ---- Flattening any dictionary --------------------------------------------------------------------------

  /** The value of the last pair with this key. */
  function LastOf<V>(pairs: seq<(string, V)>, k: string): Option<V> {
    if pairs == [] then None
    else if pairs[|pairs| - 1].0 == k then Some(pairs[|pairs| - 1].1)
    else LastOf(pairs[..|pairs| - 1], k)
  }

  lemma {:induction false} LastOfIs<V>(pairs: seq<(string, V)>, k: string)
    ensures LastOf(pairs, k).None? <==> forall i :: 0 <= i < |pairs| ==> pairs[i].0 != k
    ensures LastOf(pairs, k).Some? ==> exists i: nat :: IsLast(pairs, i, k) && pairs[i].1 == LastOf(pairs, k).value
  {
    if pairs != [] {
      var front := pairs[..|pairs| - 1];
      LastOfIs(front, k);
      if pairs[|pairs| - 1].0 == k {
        assert IsLast(pairs, |pairs| - 1, k);
      } else if LastOf(front, k).Some? {
        var i: nat :| IsLast(front, i, k) && front[i].1 == LastOf(front, k).value;
        assert IsLast(pairs, i, k);
      }
    }
  }

  ghost predicate IsLast<V>(pairs: seq<(string, V)>, i: nat, k: string) {
    i < |pairs| && pairs[i].0 == k && forall j :: i < j < |pairs| ==> pairs[j].0 != k
  }

  lemma {:induction false} LastOfTwo<V>(a: seq<(string, V)>, b: seq<(string, V)>, k: string)
    ensures LastOf(a + b, k) == if LastOf(b, k).Some? then LastOf(b, k) else LastOf(a, k)
  {
    if b == [] {
      assert a + b == a;
    } else {
      LastOfTwo(a, b[..|b| - 1], k);
      assert (a + b)[..|a + b| - 1] == a + b[..|b| - 1];
    }
  }

  lemma {:induction false} FromPairsFinds<V>(pairs: seq<(string, V)>, k: string)
    ensures OD.Find(FromPairs(pairs), k) == LastOf(pairs, k) && OD.Distinct(FromPairs(pairs))
  {
    if pairs != [] {
      var front, last := pairs[..|pairs| - 1], pairs[|pairs| - 1];
      FromPairsFinds(front, k);
      OD.FindAfterPut(FromPairs(front), last.0, last.1, k);
      OD.PutDistinct(FromPairs(front), last.0, last.1);
    }
  }

  lemma {:induction false} LastOfDistinct<V>(flat: Flat<V>, k: string)
    requires OD.Distinct(flat)
    ensures LastOf(flat, k) == OD.Find(flat, k)
  {
    if flat != [] {
      var front, last := flat[..|flat| - 1], flat[|flat| - 1];
      LastOfDistinct(front, k);
      PutAbsent(front, last.0, last.1);
      OD.FindAfterPut(front, last.0, last.1, k);
      assert flat == front + [last];
    }
  }

  lemma {:induction false} ListedFinds<V>(items: Items<V>, parent: string, sep: string, k: string)
    ensures LastOf(Listed(items, parent, sep), k) == LastOf(Keyed(parent, sep, LeavesOf(items)), k)
    decreases items
  {
    match items
    case Empty =>
    case Item(key, Leaf(v), rest) =>
      ListedFinds(rest, parent, sep, k);
      var here := [(NewKey(parent, sep, key), v)];
      KeyedConcat(parent, sep, [([key], v)], LeavesOf(rest));
      assert Joined(parent, sep, [key]) == NewKey(parent, sep, key);
      assert Keyed(parent, sep, [([key], v)]) == here;
      LastOfTwo(here, Listed(rest, parent, sep), k);
      LastOfTwo(here, Keyed(parent, sep, LeavesOf(rest)), k);
    case Item(key, Dict(inner), rest) =>
      ListedFinds(rest, parent, sep, k);
      var below := NewKey(parent, sep, key);
      ListedFinds(inner, below, sep, k);
      FromPairsFinds(Listed(inner, below, sep), k);
      LastOfDistinct(FromPairs(Listed(inner, below, sep)), k);
      KeyedUnder(parent, sep, key, LeavesOf(inner));
      KeyedConcat(parent, sep, Under(key, LeavesOf(inner)), LeavesOf(rest));
      LastOfTwo(FromPairs(Listed(inner, below, sep)), Listed(rest, parent, sep), k);
      LastOfTwo(Keyed(below, sep, LeavesOf(inner)), Keyed(parent, sep, LeavesOf(rest)), k);
  }

  /** A key of the flat form holds the last leaf whose path joins to it, collisions or not; others are no keys. */
  lemma FlattenKeepsTheLast<V>(items: Items<V>, parent: string, sep: string, k: string)
    ensures var found, pairs := OD.Find(Flatten(items, parent, sep), k), Keyed(parent, sep, LeavesOf(items));
      && (found.None? <==> forall i :: 0 <= i < |pairs| ==> pairs[i].0 != k)
      && (found.Some? ==> exists i: nat :: IsLast(pairs, i, k) && pairs[i].1 == found.value)
  {
    FromPairsFinds(Listed(items, parent, sep), k);
    ListedFinds(items, parent, sep, k);
    LastOfIs(Keyed(parent, sep, LeavesOf(items)), k);
  }

  /** The leaves listed are those that can be looked up. */
  lemma {:induction false} LeavesAreFound<V>(items: Items<V>, path: Path, v: V)
    requires Unique(items) && path != []
    ensures (path, v) in LeavesOf(items) <==> LeafAt(items, path, v)
    decreases items
  {
    match items
    case Empty =>
    case Item(key, Leaf(u), rest) =>
      LeavesAreFound(rest, path, v);
      KeysOfLeaves(rest, path, v);
      assert LeavesOf(items) == [([key], u)] + LeavesOf(rest);
      assert (path, v) in LeavesOf(items) <==> (path == [key] && v == u) || (path, v) in LeavesOf(rest);
      assert |path| == 1 ==> path == [path[0]];
    case Item(key, Dict(inner), rest) =>
      LeavesAreFound(rest, path, v);
      KeysOfLeaves(rest, path, v);
      UnderHas(key, LeavesOf(inner), path, v);
      if |path| > 1 {
        LeavesAreFound(inner, path[1..], v);
      } else {
        NoEmptyPaths(inner, path[1..], v);
      }
  }

  lemma {:induction false} NoEmptyPaths<V>(items: Items<V>, path: Path, v: V)
    ensures path == [] ==> (path, v) !in LeavesOf(items)
  {
    LeavesArePathed(items);
  }

  lemma {:induction false} KeysOfLeaves<V>(items: Items<V>, path: Path, v: V)
    ensures (path, v) in LeavesOf(items) ==> path != [] && path[0] in Keys(items)
  {
    match items
    case Empty =>
    case Item(key, Leaf(u), rest) =>
      KeysOfLeaves(rest, path, v);
      assert (path, v) in LeavesOf(items) ==> path == [key] || (path, v) in LeavesOf(rest);
    case Item(key, Dict(inner), rest) =>
      UnderHas(key, LeavesOf(inner), path, v);
      KeysOfLeaves(rest, path, v);
      assert LeavesOf(items) == Under(key, LeavesOf(inner)) + LeavesOf(rest);
  }

  lemma UnderHas<V>(k: string, leaves: Leaves<V>, path: Path, v: V)
    ensures (path, v) in Under(k, leaves) <==> path != [] && path[0] == k && (path[1..], v) in leaves
  {
    var under := Under(k, leaves);
    if i :| 0 <= i < |under| && under[i] == (path, v) {
      assert leaves[i] == (path[1..], v);
    }
    if path != [] && path[0] == k && (path[1..], v) in leaves {
      var i :| 0 <= i < |leaves| && leaves[i] == (path[1..], v);
      assert under[i] == ([k] + path[1..], v) && path == [k] + path[1..];
    }
  }
}

/**
 * Flattening a nested dictionary into one with joined keys, and back.
 *
 * Dictionaries are insertion ordered. `unflatten_dict` writes into nested dictionaries it
 * has just created; here the result is a value that each write replaces.
 */
module NestedDict {
  import opened Prelude
  import OD = OrderedDict

  /** A value: a leaf of any other type, or a dictionary. */
  datatype Tree<V> = Leaf(value: V) | Dict(items: Items<V>)

  /** The items of a dictionary, oldest first. */
  datatype Items<V> = Empty | Item(key: string, tree: Tree<V>, rest: Items<V>)

  type Flat<V> = OD.Items<string, V>

  /** `TypeError` on a path through a leaf; `ValueError` on splitting by nothing. */
  datatype Refusal = NotADictionary | EmptySeparator

  function Keys<V>(items: Items<V>): set<string> {
    if items.Empty? then {} else {items.key} + Keys(items.rest)
  }

  function Size<V>(t: Tree<V>): nat {
    if t.Leaf? then 0 else 1 + SizeOf(t.items)
  }

  function SizeOf<V>(items: Items<V>): nat {
    if items.Empty? then 0 else 1 + Size(items.tree) + SizeOf(items.rest)
  }

  function Get<V>(items: Items<V>, k: string): (t: Tree<V>)
    requires k in Keys(items)
    ensures Size(t) < SizeOf(items)
  {
    if items.key == k then items.tree else Get(items.rest, k)
  }

  /** Assignment: an existing key keeps its place, a new one goes to the end. */
  function Assign<V>(items: Items<V>, k: string, t: Tree<V>): Items<V> {
    match items
    case Empty => Item(k, t, Empty)
    case Item(key, tree, rest) => if key == k then Item(k, t, rest) else Item(key, tree, Assign(rest, k, t))
  }

  /** No dictionary in the tree has a key twice. */
  predicate UniqueTree<V>(t: Tree<V>) {
    t.Leaf? || Unique(t.items)
  }

  predicate Unique<V>(items: Items<V>) {
    items.Empty? || (items.key !in Keys(items.rest) && UniqueTree(items.tree) && Unique(items.rest))
  }

  // ---- Flattening --------------------------------------------------------------------------------

  function NewKey(parent: string, sep: string, k: string): string {
    if parent == "" then k else parent + sep + k
  }

  /** `dict(pairs)`: a later pair overwrites an earlier one of the same key, in its place. */
  function FromPairs<V>(pairs: seq<(string, V)>): Flat<V> {
    if pairs == [] then []
    else OD.Put(FromPairs(pairs[..|pairs| - 1]), pairs[|pairs| - 1].0, pairs[|pairs| - 1].1)
  }

  /** What the loop over `items` lists before it is made a dictionary. */
  function Listed<V>(items: Items<V>, parent: string, sep: string): seq<(string, V)> {
    match items
    case Empty => []
    case Item(k, Leaf(v), rest) => [(NewKey(parent, sep, k), v)] + Listed(rest, parent, sep)
    case Item(k, Dict(inner), rest) => FromPairs(Listed(inner, NewKey(parent, sep, k), sep)) + Listed(rest, parent, sep)
  }

  function Flatten<V>(items: Items<V>, parent: string, sep: string): Flat<V> {
    FromPairs(Listed(items, parent, sep))
  }

  method MakeDict<V>(pairs: seq<(string, V)>) returns (flat: Flat<V>)
    ensures flat == FromPairs(pairs)
  {
    flat := [];
    for i := 0 to |pairs|
      invariant flat == FromPairs(pairs[..i])
    {
      assert pairs[..i + 1][..i] == pairs[..i];
      flat := OD.Put(flat, pairs[i].0, pairs[i].1);
    }
    assert pairs[..|pairs|] == pairs;
  }

  method FlattenDict<V>(items: Items<V>, parent: string, sep: string) returns (flat: Flat<V>)
    ensures flat == Flatten(items, parent, sep)
    decreases SizeOf(items)
  {
    var pairs: seq<(string, V)> := [];
    var left := items;
    while left.Item?
      invariant pairs + Listed(left, parent, sep) == Listed(items, parent, sep)
      invariant SizeOf(left) <= SizeOf(items)
      decreases left
    {
      var key := NewKey(parent, sep, left.key);
      var more: seq<(string, V)>;
      if left.tree.Dict? {
        more := FlattenDict(left.tree.items, key, sep);
      } else {
        more := [(key, left.tree.value)];
      }
      Associate(pairs, more, Listed(left.rest, parent, sep));
      pairs := pairs + more;
      left := left.rest;
    }
    assert pairs + [] == pairs;
    flat := MakeDict(pairs);
  }

  lemma Associate<T>(a: seq<T>, b: seq<T>, c: seq<T>)
    ensures (a + b) + c == a + (b + c)
  {
  }

  // ---- Unflattening ------------------------------------------------------------------------------

  /** `key.split(sep)`: parted at the leftmost separator, and again from there on. */
  function Split(s: string, sep: string): (parts: seq<string>)
    requires sep != ""
    ensures parts != []
    decreases |s|
  {
    if |s| < |sep| then [s]
    else if sep <= s then [""] + Split(s[|sep|..], sep)
    else
      var parts := Split(s[1..], sep);
      [[s[0]] + parts[0]] + parts[1..]
  }

  /** Writes a leaf at a path, creating dictionaries on the way; going through a leaf raises `TypeError`. */
  function SetPath<V>(items: Items<V>, path: seq<string>, v: V): Result<Items<V>, Refusal>
    requires path != []
    decreases |path|
  {
    if |path| == 1 then Ok(Assign(items, path[0], Leaf(v)))
    else if path[0] in Keys(items) && Get(items, path[0]).Leaf? then Err(NotADictionary)
    else
      var inner := if path[0] in Keys(items) then Get(items, path[0]).items else Empty;
      match SetPath(inner, path[1..], v)
      case Err(e) => Err(e)
      case Ok(r) => Ok(Assign(items, path[0], Dict(r)))
  }

  /** Writing all of `flat`, in order, into `items`. */
  function Unflattened<V>(items: Items<V>, flat: Flat<V>, sep: string): Result<Items<V>, Refusal>
    decreases |flat|
  {
    if flat == [] then Ok(items)
    else if sep == "" then Err(EmptySeparator)
    else
      match SetPath(items, Split(flat[0].0, sep), flat[0].1)
      case Err(e) => Err(e)
      case Ok(r) => Unflattened(r, flat[1..], sep)
  }

  method UnflattenDict<V>(flat: Flat<V>, sep: string) returns (r: Result<Items<V>, Refusal>)
    ensures r == Unflattened(Empty, flat, sep)
  {
    var result := Empty;
    for i := 0 to |flat|
      invariant Unflattened(result, flat[i..], sep) == Unflattened(Empty, flat, sep)
    {
      if sep == "" { return Err(EmptySeparator); }
      var step := SetPath(result, Split(flat[i].0, sep), flat[i].1);
      assert flat[i..][0] == flat[i] && flat[i..][1..] == flat[i + 1..];
      if step.Err? { return step; }
      result := step.value;
    }
    r := Ok(result);
  }

  // ---- Dictionaries that survive the round trip -----------------------------------------------------

  /** `sep` occurs in `s` at index `i`. */
  predicate At(s: string, sep: string, i: nat) {
    i + |sep| <= |s| && s[i..i + |sep|] == sep
  }

  lemma AtShifts(s: string, sep: string, i: nat)
    requires s != ""
    ensures At(s[1..], sep, i) <==> At(s, sep, i + 1)
  {
    if i + 1 + |sep| <= |s| {
      assert s[1..][i..i + |sep|] == s[i + 1..i + 1 + |sep|];
    }
  }

  /** The separator does not occur in `k`. */
  predicate Free(k: string, sep: string) {
    forall i :: 0 <= i <= |k| ==> !At(k, sep, i)
  }

  /** A separator appended to `k` is the first one there: none occurs earlier, or across the end of `k`. */
  predicate Joins(k: string, sep: string) {
    forall i :: 0 <= i < |k| ==> !At(k + sep, sep, i)
  }

  /** A leaf has a key without separator; a dictionary is not empty, and a separator after its key is the first. */
  predicate TidyItem<V>(k: string, t: Tree<V>, sep: string)
    decreases t
  {
    if t.Leaf? then Free(k, sep) else Joins(k, sep) && t.items.Item? && Tidy(t.items, sep)
  }

  predicate Tidy<V>(items: Items<V>, sep: string)
    decreases items
  {
    items.Empty? || (TidyItem(items.key, items.tree, sep) && Tidy(items.rest, sep))
  }

  /** The empty key, if present, holds a leaf. */
  predicate EmptyKeyIsLeaf<V>(items: Items<V>) {
    "" in Keys(items) ==> Get(items, "").Leaf?
  }

  /** What a caller can check before flattening. */
  predicate Reversible<V>(items: Items<V>, sep: string) {
    Tidy(items, sep) && EmptyKeyIsLeaf(items)
  }

  /** Equality of dictionaries as Python has it: the order of the items does not matter. */
  ghost predicate Alike<V>(a: Tree<V>, b: Tree<V>)
    decreases Size(a)
  {
    if a.Leaf? || b.Leaf? then a == b
    else
      && Keys(a.items) == Keys(b.items)
      && forall k :: k in Keys(a.items) ==> Alike(Get(a.items, k), Get(b.items, k))
  }

  // ---- Splitting undoes joining -------------------------------------------------------------------

  lemma {:induction false} SplitFree(k: string, sep: string)
    requires sep != "" && Free(k, sep)
    ensures Split(k, sep) == [k]
  {
    if |sep| <= |k| {
      assert !At(k, sep, 0);
      forall i | 0 <= i <= |k[1..]| ensures !At(k[1..], sep, i) {
        AtShifts(k, sep, i);
      }
      SplitFree(k[1..], sep);
      assert k == [k[0]] + k[1..];
    }
  }

  lemma TailJoins(k: string, sep: string)
    requires sep != "" && k != "" && Joins(k, sep)
    ensures Joins(k[1..], sep)
  {
    var rest := k[1..];
    assert rest + sep == (k + sep)[1..];
    forall i | 0 <= i < |rest| ensures !At(rest + sep, sep, i) {
      AtShifts(k + sep, sep, i);
    }
  }

  lemma NotInFront(k: string, sep: string, t: string)
    requires sep != "" && k != "" && Joins(k, sep)
    ensures !(sep <= k + sep + t)
  {
    assert !At(k + sep, sep, 0);
    assert (k + sep + t)[..|sep|] == (k + sep)[..|sep|];
  }

  lemma {:induction false} SplitJoins(k: string, sep: string, t: string)
    requires sep != "" && Joins(k, sep)
    ensures Split(k + sep + t, sep) == [k] + Split(t, sep)
  {
    var s := k + sep + t;
    if k == "" {
      assert s == sep + t && s[|sep|..] == t;
    } else {
      NotInFront(k, sep, t);
      TailJoins(k, sep);
      SplitJoins(k[1..], sep, t);
      assert s[1..] == k[1..] + sep + t;
      assert k == [k[0]] + k[1..];
    }
  }

  /** A path whose keys, joined, can be told apart again. */
  predicate Clean(path: seq<string>, sep: string) {
    && path != []
    && (forall i :: 0 <= i < |path| - 1 ==> Joins(path[i], sep))
    && Free(path[|path| - 1], sep)
  }

  /** `sep.join(path)` */
  function Join(path: seq<string>, sep: string): string
    requires path != []
    decreases |path|
  {
    if |path| == 1 then path[0] else path[0] + sep + Join(path[1..], sep)
  }

  lemma {:induction false} SplitUndoesJoin(path: seq<string>, sep: string)
    requires sep != "" && Clean(path, sep)
    ensures Split(Join(path, sep), sep) == path
    decreases |path|
  {
    if |path| == 1 {
      SplitFree(path[0], sep);
    } else {
      SplitJoins(path[0], sep, Join(path[1..], sep));
      SplitUndoesJoin(path[1..], sep);
    }
  }

  lemma CleanUnder(k: string, path: seq<string>, sep: string)
    requires Joins(k, sep) && Clean(path, sep)
    ensures Clean([k] + path, sep)
  {
  }

  /** The first part of a split is all there is, or is followed by a separator. */
  predicate StartsWith(s: string, parts: seq<string>, sep: string) {
    parts != [] && if |parts| == 1 then parts[0] == s else parts[0] + sep <= s
  }

  lemma LongerFirstPart(s: string, parts: seq<string>, sep: string)
    requires s != "" && !(sep <= s) && Clean(parts, sep) && StartsWith(s[1..], parts, sep)
    ensures var longer := [[s[0]] + parts[0]] + parts[1..]; Clean(longer, sep) && StartsWith(s, longer, sep)
  {
    var k := [s[0]] + parts[0];
    if |parts| == 1 {
      assert k == s;
      forall i | 0 <= i <= |k| ensures !At(k, sep, i) {
        if i > 0 {
          AtShifts(k, sep, i - 1);
        }
      }
    } else {
      assert k + sep <= s;
      forall i | 0 <= i < |k| ensures !At(k + sep, sep, i) {
        if i > 0 {
          AtShifts(k + sep, sep, i - 1);
          assert (k + sep)[1..] == parts[0] + sep;
        }
      }
    }
  }

  /** Whatever is split, the parts make a clean path. */
  lemma {:induction false} PartsAreClean(s: string, sep: string)
    requires sep != ""
    ensures Clean(Split(s, sep), sep) && StartsWith(s, Split(s, sep), sep)
    decreases |s|
  {
    if |s| < |sep| {
    } else if sep <= s {
      PartsAreClean(s[|sep|..], sep);
      CleanUnder("", Split(s[|sep|..], sep), sep);
      assert "" + sep == sep;
    } else {
      PartsAreClean(s[1..], sep);
      LongerFirstPart(s, Split(s[1..], sep), sep);
    }
  }

  /** The key of a leaf reached by `path` from a dictionary flattened under `parent`. */
  function Joined(parent: string, sep: string, path: seq<string>): string
    decreases |path|
  {
    if path == [] then parent else Joined(NewKey(parent, sep, path[0]), sep, path[1..])
  }

  lemma {:induction false} JoinedUnder(parent: string, sep: string, path: seq<string>)
    requires parent != "" && path != []
    ensures Joined(parent, sep, path) == parent + sep + Join(path, sep)
    decreases |path|
  {
    if |path| > 1 {
      JoinedUnder(NewKey(parent, sep, path[0]), sep, path[1..]);
      Associate(parent + sep, path[0], sep);
      Associate(parent + sep, path[0] + sep, Join(path[1..], sep));
    }
  }

  /** At the top the empty key leaves no trace in front of a longer path. */
  lemma JoinedOnTop(sep: string, path: seq<string>)
    requires path != [] && (path[0] == "" ==> |path| == 1)
    ensures Joined("", sep, path) == Join(path, sep)
  {
    if |path| > 1 {
      JoinedUnder(path[0], sep, path[1..]);
    }
  }

  // ---- Leaves ------------------------------------------------------------------------------------------

  type Leaves<V> = seq<(seq<string>, V)>

  function Under<V>(k: string, leaves: Leaves<V>): Leaves<V> {
    seq(|leaves|, i requires 0 <= i < |leaves| => ([k] + leaves[i].0, leaves[i].1))
  }

  /** The leaves of a dictionary with their paths, in order. */
  function LeavesOf<V>(items: Items<V>): Leaves<V> {
    match items
    case Empty => []
    case Item(k, Leaf(v), rest) => [([k], v)] + LeavesOf(rest)
    case Item(k, Dict(inner), rest) => Under(k, LeavesOf(inner)) + LeavesOf(rest)
  }

  function Keyed<V>(parent: string, sep: string, leaves: Leaves<V>): seq<(string, V)> {
    seq(|leaves|, i requires 0 <= i < |leaves| => (Joined(parent, sep, leaves[i].0), leaves[i].1))
  }

  ghost predicate DistinctPaths<V>(leaves: Leaves<V>) {
    forall i, j :: 0 <= i < j < |leaves| ==> leaves[i].0 != leaves[j].0
  }

  lemma {:induction false} PathsStartWithKeys<V>(items: Items<V>, sep: string)
    requires Tidy(items, sep)
    ensures forall i :: 0 <= i < |LeavesOf(items)| ==>
      var path := LeavesOf(items)[i].0; path != [] && path[0] in Keys(items) && Clean(path, sep)
  {
    match items
    case Empty =>
    case Item(k, Leaf(v), rest) => PathsStartWithKeys(rest, sep);
    case Item(k, Dict(inner), rest) =>
      PathsStartWithKeys(rest, sep);
      PathsStartWithKeys(inner, sep);
      forall i | 0 <= i < |LeavesOf(inner)| ensures Clean([k] + LeavesOf(inner)[i].0, sep) {
        CleanUnder(k, LeavesOf(inner)[i].0, sep);
      }
  }

  lemma {:induction false} PathsAreDistinct<V>(items: Items<V>, sep: string)
    requires Unique(items) && Tidy(items, sep)
    ensures DistinctPaths(LeavesOf(items))
  {
    match items
    case Empty =>
    case Item(k, Leaf(v), rest) =>
      PathsAreDistinct(rest, sep);
      PathsStartWithKeys(rest, sep);
    case Item(k, Dict(inner), rest) =>
      PathsAreDistinct(rest, sep);
      PathsStartWithKeys(rest, sep);
      PathsAreDistinct(inner, sep);
      var under, others := Under(k, LeavesOf(inner)), LeavesOf(rest);
      forall i, j | 0 <= i < j < |under| ensures under[i].0 != under[j].0 {
        assert under[i].0[1..] == LeavesOf(inner)[i].0 && under[j].0[1..] == LeavesOf(inner)[j].0;
      }
  }

  // ---- The flat form of a reversible dictionary -------------------------------------------------------

  lemma {:induction false} PutAbsent<V>(flat: Flat<V>, k: string, v: V)
    requires forall i :: 0 <= i < |flat| ==> flat[i].0 != k
    ensures OD.Put(flat, k, v) == flat + [(k, v)]
  {
    if flat != [] {
      PutAbsent(flat[1..], k, v);
    }
  }

  /** Without collisions, making pairs a dictionary changes nothing. */
  lemma {:induction false} DistinctPairsAreKept<V>(pairs: seq<(string, V)>)
    requires OD.Distinct(pairs)
    ensures FromPairs(pairs) == pairs
  {
    if pairs != [] {
      var front := pairs[..|pairs| - 1];
      DistinctPairsAreKept(front);
      PutAbsent(front, pairs[|pairs| - 1].0, pairs[|pairs| - 1].1);
    }
  }

  /** Every leaf path can be read back off its joined key. */
  ghost predicate Readable<V>(sep: string, leaves: Leaves<V>) {
    forall i :: 0 <= i < |leaves| ==> sep != "" && Split(Joined("", sep, leaves[i].0), sep) == leaves[i].0
  }

  lemma DistinctUnder<V>(items: Items<V>, parent: string, sep: string)
    requires Unique(items) && Tidy(items, sep) && parent != "" && sep != ""
    ensures OD.Distinct(Keyed(parent, sep, LeavesOf(items)))
  {
    var leaves := LeavesOf(items);
    PathsAreDistinct(items, sep);
    PathsStartWithKeys(items, sep);
    forall i, j | 0 <= i < j < |leaves| ensures Joined(parent, sep, leaves[i].0) != Joined(parent, sep, leaves[j].0) {
      JoinsApart(parent, sep, leaves[i].0, leaves[j].0);
    }
  }

  lemma JoinsApart(parent: string, sep: string, p: seq<string>, q: seq<string>)
    requires sep != "" && parent != "" && Clean(p, sep) && Clean(q, sep) && p != q
    ensures Joined(parent, sep, p) != Joined(parent, sep, q)
  {
    SplitUndoesJoin(p, sep);
    SplitUndoesJoin(q, sep);
    JoinedUnder(parent, sep, p);
    JoinedUnder(parent, sep, q);
    var start := parent + sep;
    assert (start + Join(p, sep))[|start|..] == Join(p, sep);
    assert (start + Join(q, sep))[|start|..] == Join(q, sep);
  }

  lemma {:induction false} EmptyKeyIsAlone<V>(items: Items<V>, sep: string)
    requires Unique(items) && Tidy(items, sep) && EmptyKeyIsLeaf(items)
    ensures forall i :: 0 <= i < |LeavesOf(items)| ==>
      var path := LeavesOf(items)[i].0; path != [] && (path[0] == "" ==> |path| == 1)
  {
    match items
    case Empty =>
    case Item(k, Leaf(v), rest) => EmptyKeyIsAlone(rest, sep);
    case Item(k, Dict(inner), rest) => EmptyKeyIsAlone(rest, sep);
  }

  lemma TopLeavesAreReadable<V>(items: Items<V>, sep: string)
    requires Unique(items) && Reversible(items, sep) && sep != ""
    ensures Readable(sep, LeavesOf(items))
  {
    PathsStartWithKeys(items, sep);
    EmptyKeyIsAlone(items, sep);
    forall i | 0 <= i < |LeavesOf(items)|
      ensures Split(Joined("", sep, LeavesOf(items)[i].0), sep) == LeavesOf(items)[i].0
    {
      JoinedOnTop(sep, LeavesOf(items)[i].0);
      SplitUndoesJoin(LeavesOf(items)[i].0, sep);
    }
  }

  lemma KeyedUnder<V>(parent: string, sep: string, k: string, leaves: Leaves<V>)
    ensures Keyed(parent, sep, Under(k, leaves)) == Keyed(NewKey(parent, sep, k), sep, leaves)
  {
  }

  lemma KeyedConcat<V>(parent: string, sep: string, a: Leaves<V>, b: Leaves<V>)
    ensures Keyed(parent, sep, a + b) == Keyed(parent, sep, a) + Keyed(parent, sep, b)
  {
  }

  /** Flattening lists the leaves under their joined keys, when no nested dictionary hangs under the empty string. */
  lemma {:induction false} ListedAreTheLeaves<V>(items: Items<V>, parent: string, sep: string)
    requires sep != "" && Unique(items) && Tidy(items, sep) && (parent == "" ==> EmptyKeyIsLeaf(items))
    ensures Listed(items, parent, sep) == Keyed(parent, sep, LeavesOf(items))
    decreases items
  {
    match items
    case Empty =>
    case Item(k, Leaf(v), rest) =>
      ListedAreTheLeaves(rest, parent, sep);
      KeyedConcat(parent, sep, [([k], v)], LeavesOf(rest));
      assert Joined(parent, sep, [k]) == NewKey(parent, sep, k);
    case Item(k, Dict(inner), rest) =>
      ListedAreTheLeaves(rest, parent, sep);
      ListedAreTheLeaves(inner, NewKey(parent, sep, k), sep);
      DistinctUnder(inner, NewKey(parent, sep, k), sep);
      DistinctPairsAreKept(Keyed(NewKey(parent, sep, k), sep, LeavesOf(inner)));
      KeyedUnder(parent, sep, k, LeavesOf(inner));
      KeyedConcat(parent, sep, Under(k, LeavesOf(inner)), LeavesOf(rest));
  }

  /** Splitting by nothing raises: then only the empty dictionary is reversible. */
  lemma NothingSeparates<V>(items: Items<V>)
    ensures Reversible(items, "") <==> items.Empty?
  {
    if items.Item? {
      var k := items.key;
      assert At(k, "", 0) && At(k + "", "", 0);
      if k != "" {
        assert !Free(k, "") && !Joins(k, "");
        assert !TidyItem(k, items.tree, "");
      }
    }
  }

  /** No two leaves of a reversible dictionary collide: its flat form lists every leaf under its own key. */
  lemma FlatFormListsTheLeaves<V>(items: Items<V>, sep: string)
    requires Unique(items) && Reversible(items, sep)
    ensures Flatten(items, "", sep) == Keyed("", sep, LeavesOf(items)) && OD.Distinct(Flatten(items, "", sep))
    ensures Readable(sep, LeavesOf(items))
  {
    if sep == "" {
      NothingSeparates(items);
    } else {
      var leaves := LeavesOf(items);
      ListedAreTheLeaves(items, "", sep);
      TopLeavesAreReadable(items, sep);
      PathsAreDistinct(items, sep);
      assert OD.Distinct(Keyed("", sep, leaves)) by {
        forall i, j | 0 <= i < j < |leaves| ensures Joined("", sep, leaves[i].0) != Joined("", sep, leaves[j].0) {
          assert Split(Joined("", sep, leaves[i].0), sep) == leaves[i].0;
          assert Split(Joined("", sep, leaves[j].0), sep) == leaves[j].0;
        }
      }
      DistinctPairsAreKept(Keyed("", sep, leaves));
    }
  }

  // ---- Rebuilding ---------------------------------------------------------------------------------------

  ghost predicate Pathed<V>(leaves: Leaves<V>) {
    forall i :: 0 <= i < |leaves| ==> leaves[i].0 != []
  }

  /** Writing the leaves, in order, into `items`. */
  function Built<V>(items: Items<V>, leaves: Leaves<V>): Result<Items<V>, Refusal>
    requires forall i :: 0 <= i < |leaves| ==> leaves[i].0 != []
    decreases |leaves|
  {
    if leaves == [] then Ok(items)
    else
      match SetPath(items, leaves[0].0, leaves[0].1)
      case Err(e) => Err(e)
      case Ok(r) => Built(r, leaves[1..])
  }

  lemma {:induction false} UnflattenBuilds<V>(items: Items<V>, sep: string, leaves: Leaves<V>)
    requires Readable(sep, leaves) && Pathed(leaves)
    ensures Unflattened(items, Keyed("", sep, leaves), sep) == Built(items, leaves)
    decreases |leaves|
  {
    var flat := Keyed("", sep, leaves);
    if leaves != [] {
      assert Split(flat[0].0, sep) == leaves[0].0;
      assert flat[1..] == Keyed("", sep, leaves[1..]);
      var step := SetPath(items, leaves[0].0, leaves[0].1);
      if step.Ok? {
        UnflattenBuilds(step.value, sep, leaves[1..]);
      }
    }
  }

  function Plus<V>(a: Items<V>, b: Items<V>): Items<V> {
    if a.Empty? then b else Item(a.key, a.tree, Plus(a.rest, b))
  }

  lemma {:induction false} PlusAssociates<V>(a: Items<V>, b: Items<V>, c: Items<V>)
    ensures Plus(Plus(a, b), c) == Plus(a, Plus(b, c))
    ensures Keys(Plus(a, b)) == Keys(a) + Keys(b)
  {
    if a.Item? {
      PlusAssociates(a.rest, b, c);
    }
  }

  lemma {:induction false} AssignNew<V>(a: Items<V>, k: string, t: Tree<V>)
    requires k !in Keys(a)
    ensures Assign(a, k, t) == Plus(a, Item(k, t, Empty))
  {
    if a.Item? {
      AssignNew(a.rest, k, t);
    }
  }

  lemma {:induction false} AssignLast<V>(a: Items<V>, k: string, t: Tree<V>, u: Tree<V>)
    requires k !in Keys(a)
    ensures Assign(Plus(a, Item(k, t, Empty)), k, u) == Plus(a, Item(k, u, Empty))
    ensures k in Keys(Plus(a, Item(k, t, Empty))) && Get(Plus(a, Item(k, t, Empty)), k) == t
  {
    if a.Item? {
      AssignLast(a.rest, k, t, u);
    }
  }

  /** A dictionary built under the last key of `a`. */
  function Hung<V>(a: Items<V>, k: string, r: Result<Items<V>, Refusal>): Result<Items<V>, Refusal> {
    if r.Ok? then Ok(Plus(a, Item(k, Dict(r.value), Empty))) else r
  }

  lemma SetUnder<V>(a: Items<V>, k: string, b: Items<V>, path: seq<string>, v: V)
    requires k !in Keys(a) && path != []
    ensures SetPath(Plus(a, Item(k, Dict(b), Empty)), [k] + path, v) == Hung(a, k, SetPath(b, path, v))
    ensures SetPath(a, [k] + path, v) == Hung(a, k, SetPath(Empty, path, v))
  {
    assert ([k] + path)[1..] == path;
    AssignLast(a, k, Dict(b), Dict(b));
    var r := SetPath(b, path, v);
    if r.Ok? {
      AssignLast(a, k, Dict(b), Dict(r.value));
    }
    var f := SetPath(Empty, path, v);
    if f.Ok? {
      AssignNew(a, k, Dict(f.value));
    }
  }

  lemma UnderIsPathed<V>(k: string, leaves: Leaves<V>)
    requires Pathed(leaves)
    ensures Pathed(Under(k, leaves)) && |Under(k, leaves)| == |leaves|
    ensures leaves != [] ==> Under(k, leaves)[0] == ([k] + leaves[0].0, leaves[0].1)
    ensures leaves != [] ==> Under(k, leaves)[1..] == Under(k, leaves[1..])
  {
  }

  lemma {:induction false} BuiltUnder<V>(a: Items<V>, k: string, b: Items<V>, leaves: Leaves<V>)
    requires k !in Keys(a) && Pathed(leaves) && Pathed(Under(k, leaves))
    ensures Built(Plus(a, Item(k, Dict(b), Empty)), Under(k, leaves)) == Hung(a, k, Built(b, leaves))
    decreases |leaves|
  {
    UnderIsPathed(k, leaves);
    if leaves != [] {
      SetUnder(a, k, b, leaves[0].0, leaves[0].1);
      var step := SetPath(b, leaves[0].0, leaves[0].1);
      if step.Ok? {
        UnderIsPathed(k, leaves[1..]);
        BuiltUnder(a, k, step.value, leaves[1..]);
      }
    }
  }

  /** The first leaf under a new key creates its dictionary. */
  lemma BuiltUnderNew<V>(a: Items<V>, k: string, leaves: Leaves<V>)
    requires k !in Keys(a) && Pathed(leaves) && Pathed(Under(k, leaves)) && leaves != []
    ensures Built(a, Under(k, leaves)) == Hung(a, k, Built(Empty, leaves))
  {
    UnderIsPathed(k, leaves);
    UnderIsPathed(k, leaves[1..]);
    SetUnder(a, k, Empty, leaves[0].0, leaves[0].1);
    var step := SetPath(Empty, leaves[0].0, leaves[0].1);
    if step.Ok? {
      BuiltUnder(a, k, step.value, leaves[1..]);
    }
  }

  lemma {:induction false} BuiltInTwo<V>(a: Items<V>, x: Leaves<V>, y: Leaves<V>)
    requires Pathed(x) && Pathed(y) && Pathed(x + y)
    ensures Built(a, x + y) == var r := Built(a, x); if r.Ok? then Built(r.value, y) else r
    decreases |x|
  {
    if x == [] {
      assert x + y == y;
    } else {
      assert (x + y)[0] == x[0] && (x + y)[1..] == x[1..] + y;
      var step := SetPath(a, x[0].0, x[0].1);
      if step.Ok? {
        BuiltInTwo(step.value, x[1..], y);
      }
    }
  }

  lemma {:induction false} LeavesArePathed<V>(items: Items<V>)
    ensures Pathed(LeavesOf(items))
  {
    match items
    case Empty =>
    case Item(k, Leaf(v), rest) => LeavesArePathed(rest);
    case Item(k, Dict(inner), rest) => LeavesArePathed(rest);
  }

  lemma {:induction false} TidyHasLeaves<V>(items: Items<V>, sep: string)
    requires Tidy(items, sep) && items.Item?
    ensures LeavesOf(items) != []
  {
    if items.tree.Dict? {
      TidyHasLeaves(items.tree.items, sep);
    }
  }

  lemma RebuildLeaf<V>(a: Items<V>, k: string, v: V)
    requires k !in Keys(a)
    ensures Built(a, [([k], v)]) == Ok(Plus(a, Item(k, Leaf(v), Empty)))
  {
    AssignNew(a, k, Leaf(v));
  }

  /** Writing the leaves of tidy items after those of `a` appends the items, in their order. */
  lemma {:induction false} Rebuild<V>(a: Items<V>, items: Items<V>, sep: string)
    requires Unique(items) && Tidy(items, sep) && Keys(a) !! Keys(items) && Pathed(LeavesOf(items))
    ensures Built(a, LeavesOf(items)) == Ok(Plus(a, items))
    decreases items
  {
    match items
    case Empty => PlusEmpty(a);
    case Item(k, tree, rest) =>
      var b := Plus(a, Item(k, tree, Empty));
      PlusAssociates(a, Item(k, tree, Empty), rest);
      LeavesArePathed(rest);
      Rebuild(b, rest, sep);
      if tree.Leaf? {
        RebuildLeaf(a, k, tree.value);
        BuiltInTwo(a, [([k], tree.value)], LeavesOf(rest));
      } else {
        LeavesArePathed(tree.items);
        Rebuild(Empty, tree.items, sep);
        TidyHasLeaves(tree.items, sep);
        UnderIsPathed(k, LeavesOf(tree.items));
        BuiltUnderNew(a, k, LeavesOf(tree.items));
        BuiltInTwo(a, Under(k, LeavesOf(tree.items)), LeavesOf(rest));
      }
  }

  lemma {:induction false} PlusEmpty<V>(a: Items<V>)
    ensures Plus(a, Empty) == a
  {
    if a.Item? {
      PlusEmpty(a.rest);
    }
  }

  /** Unflattening undoes flattening on every reversible dictionary, down to the order of the items. */
  lemma UnflattenUndoesFlatten<V>(items: Items<V>, sep: string)
    requires Unique(items) && Reversible(items, sep)
    ensures Unflattened(Empty, Flatten(items, "", sep), sep) == Ok(items)
  {
    FlatFormListsTheLeaves(items, sep);
    LeavesArePathed(items);
    UnflattenBuilds(Empty, sep, LeavesOf(items));
    Rebuild(Empty, items, sep);
  }

  // ---- Nothing else survives ---------------------------------------------------------------------------

  lemma {:induction false} AfterAssign<V>(items: Items<V>, k: string, t: Tree<V>, x: string)
    ensures Keys(Assign(items, k, t)) == Keys(items) + {k}
    ensures x == k ==> Get(Assign(items, k, t), x) == t
    ensures x != k && x in Keys(items) ==> Get(Assign(items, k, t), x) == Get(items, x)
  {
    if items.Item? {
      AfterAssign(items.rest, k, t, x);
    }
  }

  lemma {:induction false} TidyAt<V>(items: Items<V>, sep: string, k: string)
    requires Tidy(items, sep) && k in Keys(items)
    ensures TidyItem(k, Get(items, k), sep)
  {
    if items.key != k {
      TidyAt(items.rest, sep, k);
    }
  }

  lemma {:induction false} AssignKeepsTidy<V>(items: Items<V>, k: string, t: Tree<V>, sep: string)
    requires Tidy(items, sep) && TidyItem(k, t, sep)
    ensures Tidy(Assign(items, k, t), sep)
  {
    if items.Item? {
      AssignKeepsTidy(items.rest, k, t, sep);
    }
  }

  lemma {:induction false} WritingKeepsTidy<V>(items: Items<V>, path: seq<string>, v: V, sep: string)
    requires Tidy(items, sep) && Clean(path, sep) && SetPath(items, path, v).Ok?
    ensures var r := SetPath(items, path, v).value; r.Item? && Tidy(r, sep)
    decreases |path|
  {
    if |path| == 1 {
      AssignKeepsTidy(items, path[0], Leaf(v), sep);
    } else {
      if path[0] in Keys(items) {
        TidyAt(items, sep, path[0]);
      }
      var inner := if path[0] in Keys(items) then Get(items, path[0]).items else Empty;
      WritingKeepsTidy(inner, path[1..], v, sep);
      AssignKeepsTidy(items, path[0], Dict(SetPath(inner, path[1..], v).value), sep);
    }
  }

  lemma WritingKeepsEmptyKey<V>(items: Items<V>, path: seq<string>, v: V)
    requires EmptyKeyIsLeaf(items) && path != [] && (path[0] == "" ==> |path| == 1) && SetPath(items, path, v).Ok?
    ensures EmptyKeyIsLeaf(SetPath(items, path, v).value)
  {
    if |path| == 1 {
      AfterAssign(items, path[0], Leaf(v), "");
    } else {
      var inner := if path[0] in Keys(items) then Get(items, path[0]).items else Empty;
      AfterAssign(items, path[0], Dict(SetPath(inner, path[1..], v).value), "");
    }
  }

  predicate StartsOk(k: string, sep: string) {
    !(sep <= k)
  }

  ghost predicate AllStartOk<V>(flat: seq<(string, V)>, sep: string) {
    forall i :: 0 <= i < |flat| ==> StartsOk(flat[i].0, sep)
  }

  /**
   * Whatever is unflattened, the result is tidy; and its empty key is a leaf when no flat key begins with the
   * separator.
   */
  lemma {:induction false} UnflattenedIsTidy<V>(items: Items<V>, flat: Flat<V>, sep: string)
    requires Tidy(items, sep) && Unflattened(items, flat, sep).Ok?
    ensures Tidy(Unflattened(items, flat, sep).value, sep)
    ensures EmptyKeyIsLeaf(items) && AllStartOk(flat, sep) ==> EmptyKeyIsLeaf(Unflattened(items, flat, sep).value)
    decreases |flat|
  {
    if flat != [] {
      var path := Split(flat[0].0, sep);
      PartsAreClean(flat[0].0, sep);
      WritingKeepsTidy(items, path, flat[0].1, sep);
      var next := SetPath(items, path, flat[0].1).value;
      if EmptyKeyIsLeaf(items) && AllStartOk(flat, sep) {
        assert StartsOk(flat[0].0, sep);
        WritingKeepsEmptyKey(items, path, flat[0].1);
        assert forall i :: 0 <= i < |flat[1..]| ==> flat[1..][i] == flat[i + 1];
      }
      UnflattenedIsTidy(next, flat[1..], sep);
    }
  }

  lemma {:induction false} FromPairsKeysStartOk<V>(pairs: seq<(string, V)>, sep: string)
    requires AllStartOk(pairs, sep)
    ensures AllStartOk(FromPairs(pairs), sep)
  {
    if pairs != [] {
      var front, last := pairs[..|pairs| - 1], pairs[|pairs| - 1];
      assert StartsOk(last.0, sep) && forall i :: 0 <= i < |front| ==> front[i] == pairs[i];
      FromPairsKeysStartOk(front, sep);
      OD.PutKeys(FromPairs(front), last.0, last.1);
    }
  }

  /** Flattening a tidy dictionary never makes a key that begins with the separator. */
  lemma {:induction false} FlatKeysStartOk<V>(items: Items<V>, parent: string, sep: string)
    requires sep != "" && Tidy(items, sep) && (parent == "" || StartsOk(parent + sep, sep))
    ensures AllStartOk(Listed(items, parent, sep), sep)
    decreases items
  {
    match items
    case Empty =>
    case Item(k, Leaf(v), rest) =>
      FlatKeysStartOk(rest, parent, sep);
      NewKeyStartsOk(parent, sep, k, items.tree);
    case Item(k, Dict(inner), rest) =>
      FlatKeysStartOk(rest, parent, sep);
      NewKeyStartsOk(parent, sep, k, items.tree);
      FlatKeysStartOk(inner, NewKey(parent, sep, k), sep);
      FromPairsKeysStartOk(Listed(inner, NewKey(parent, sep, k), sep), sep);
  }

  lemma NewKeyStartsOk<V>(parent: string, sep: string, k: string, t: Tree<V>)
    requires sep != "" && (parent == "" || StartsOk(parent + sep, sep)) && TidyItem(k, t, sep)
    ensures t.Leaf? ==> StartsOk(NewKey(parent, sep, k), sep)
    ensures t.Dict? ==> NewKey(parent, sep, k) == "" || StartsOk(NewKey(parent, sep, k) + sep, sep)
  {
    var key := NewKey(parent, sep, k);
    if parent != "" {
      assert key == parent + sep + k && key + sep == parent + sep + (k + sep);
    } else if t.Leaf? {
      assert !At(k, sep, 0);
    } else if k != "" {
      assert !At(k + sep, sep, 0);
    }
  }

  lemma {:induction false} UniqueAt<V>(items: Items<V>, k: string)
    requires Unique(items) && k in Keys(items)
    ensures UniqueTree(Get(items, k))
  {
    if items.key != k {
      UniqueAt(items.rest, k);
    }
  }

  lemma {:induction false} TidyByKeys<V>(items: Items<V>, sep: string)
    requires Unique(items) && forall k :: k in Keys(items) ==> TidyItem(k, Get(items, k), sep)
    ensures Tidy(items, sep)
  {
    if items.Item? {
      assert Get(items, items.key) == items.tree;
      forall k | k in Keys(items.rest) ensures TidyItem(k, Get(items.rest, k), sep) {
        assert k in Keys(items) && Get(items, k) == Get(items.rest, k);
      }
      TidyByKeys(items.rest, sep);
    }
  }

  /** Being tidy does not depend on the order of the items. */
  lemma {:induction false} AlikeIsTidy<V>(a: Items<V>, b: Items<V>, sep: string)
    requires Alike(Dict(a), Dict(b)) && Tidy(a, sep) && Unique(b)
    ensures Tidy(b, sep)
    decreases SizeOf(a)
  {
    forall k | k in Keys(b) ensures TidyItem(k, Get(b, k), sep) {
      TidyAt(a, sep, k);
      UniqueAt(b, k);
      var x, y := Get(a, k), Get(b, k);
      assert Alike(x, y);
      if x.Dict? {
        AlikeIsTidy(x.items, y.items, sep);
        assert x.items.key in Keys(x.items);
      }
    }
    TidyByKeys(b, sep);
  }

  lemma {:induction false} AlikeItself<V>(t: Tree<V>)
    ensures Alike(t, t)
    decreases Size(t)
  {
    if t.Dict? {
      forall k | k in Keys(t.items) ensures Alike(Get(t.items, k), Get(t.items, k)) {
        AlikeItself(Get(t.items, k));
      }
    }
  }

  /** What `unflatten_dict(flatten_dict(d)) == d` says, including that nothing is raised. */
  ghost predicate Survives<V>(items: Items<V>, sep: string) {
    var r := Unflattened(Empty, Flatten(items, "", sep), sep);
    r.Ok? && Alike(Dict(r.value), Dict(items))
  }

  /**
   * The round trip gives the dictionary back exactly when no key of a leaf contains the separator, no key of a
   * dictionary brings one about earlier than the one appended to it, no nested dictionary is empty, and the
   * top-level empty key, if there is one, holds no dictionary.
   */
  lemma RoundTripIff<V>(items: Items<V>, sep: string)
    requires Unique(items)
    ensures Survives(items, sep) <==> Reversible(items, sep)
  {
    if Reversible(items, sep) {
      UnflattenUndoesFlatten(items, sep);
      AlikeItself(Dict(items));
    }
    if Survives(items, sep) {
      var flat := Flatten(items, "", sep);
      var r := Unflattened(Empty, flat, sep).value;
      UnflattenedIsTidy(Empty, flat, sep);
      AlikeIsTidy(r, items, sep);
      if sep == "" {
        NothingSeparates(items);
      } else {
        FlatKeysStartOk(items, "", sep);
        FromPairsKeysStartOk(Listed(items, "", sep), sep);
        assert "" in Keys(items) ==> Alike(Get(r, ""), Get(items, ""));
      }
    }
  }

  /** With a separator of one character, such as the default, both conditions on keys say the same. */
  lemma OneCharacterSeparator(k: string, sep: string)
    requires |sep| == 1
    ensures Joins(k, sep) <==> Free(k, sep)
  {
    forall i | 0 <= i < |k| ensures At(k + sep, sep, i) <==> At(k, sep, i) {
      assert (k + sep)[i..i + 1] == [k[i]] == k[i..i + 1];
    }
  }

  lemma OneItemIsUnique<V>(k: string, t: Tree<V>)
    requires UniqueTree(t)
    ensures Unique(Item(k, t, Empty))
  {
    var items := Item(k, t, Empty);
    assert Keys(items.rest) == {} && Unique(items.rest);
  }

  /** With a longer one, keys free of it are not enough. */
  lemma FreeKeysMayNotSurvive<V>(v: V)
    ensures var items := Item("a:", Dict(Item("b", Leaf(v), Empty)), Empty);
      Free("a:", "::") && Free("b", "::") && !Survives(items, "::")
  {
    var items := Item("a:", Dict(Item("b", Leaf(v), Empty)), Empty);
    var inner := Item("b", Leaf(v), Empty);
    assert At("a:" + "::", "::", 1) && !Joins("a:", "::") && !TidyItem("a:", Dict(inner), "::");
    assert "a:"[0] != "::"[0];
    OneItemIsUnique("b", Leaf(v));
    OneItemIsUnique("a:", Dict(inner));
    RoundTripIff(items, "::");
  }
}

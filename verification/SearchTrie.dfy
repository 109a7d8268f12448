/**
 * The trie as the program builds it: nodes on the heap that are created and marked in place,
 * proved against the pure shapes of TrieShape.
 */
module SearchTrie {
  import opened Prelude
  import opened TrieShape

  class TrieNode {
    var children: map<char, TrieNode>
    var order: seq<char>
    var isEnd: bool
    var word: Option<string>
    var metadata: Metadata
    /** The characters that lead here from the root. */
    ghost const path: string

    constructor (ghost path: string)
      ensures View() == NodeView(this, map[], NEW_CELL) && this.path == path
    {
      this.path := path;
      children, order, isEnd, word, metadata := map[], [], false, None, null;
    }

    ghost function View(): NodeView
      reads this
    {
      NodeView(this, children, Cell(isEnd, word, metadata, order))
    }

    /** `node.children.values()` */
    function Children(): seq<TrieNode>
      requires forall i :: 0 <= i < |order| ==> order[i] in children
      reads this
    {
      seq(|order|, i requires 0 <= i < |order| && order[i] in children reads this => children[order[i]])
    }

    /** `node.children[char] = TrieNode()` */
    method NewChild(c: char) returns (n: TrieNode)
      modifies this
      ensures fresh(n) && n.View() == NodeView(n, map[], NEW_CELL) && n.path == path + [c]
      ensures View() == old(View()).(
                          children := old(children)[c := n], cell := old(View()).cell.(order := old(order) + [c]))
    {
      n := new TrieNode(path + [c]);
      children := children[c := n];
      order := order + [c];
    }
  }

  // ---- A heap of nodes seen as a value ---------------------------------------------------------

  /** A node and what it held when looked at. */
  datatype NodeView = NodeView(node: TrieNode, children: map<char, TrieNode>, cell: Cell)

  type Picture = map<string, NodeView>

  function ShapeOf(v: Picture): Shape {
    map p | p in v :: v[p].cell
  }

  /** The children of the node at `p` are the nodes one character further. */
  ghost predicate ChildrenOk(v: Picture, p: string)
    requires p in v
  {
    && (forall c :: c in v[p].children <==> c in v[p].cell.order)
    && (forall c :: c in v[p].children ==> p + [c] in v && v[p].children[c] == v[p + [c]].node)
  }

  /** The heap graph is the tree that the picture says it is. */
  ghost predicate Wired(v: Picture) {
    "" in v && forall p {:trigger ChildrenOk(v, p)} :: p in v ==> ChildrenOk(v, p)
  }

  function Adopted(v: Picture, p: string, c: char, n: TrieNode): Picture
    requires p in v
  {
    var x := v[p];
    var y := x.(children := x.children[c := n], cell := x.cell.(order := x.cell.order + [c]));
    v[p := y][p + [c] := NodeView(n, map[], NEW_CELL)]
  }

  lemma AdoptingKeepsChildren(v: Picture, p: string, c: char, n: TrieNode, q: string)
    requires p in v && p + [c] !in v && ChildrenOk(v, p)
    requires q in Adopted(v, p, c, n) && (q in v ==> ChildrenOk(v, q))
    ensures ChildrenOk(Adopted(v, p, c, n), q)
  {
  }

  lemma AdoptingGrowsShape(v: Picture, p: string, c: char, n: TrieNode)
    requires p in v && p + [c] !in v
    ensures ShapeOf(Adopted(v, p, c, n)) == WithChild(ShapeOf(v), p, c)
  {
  }

  lemma AdoptingKeepsWired(v: Picture, p: string, c: char, n: TrieNode)
    requires Wired(v) && p in v && p + [c] !in v
    ensures Wired(Adopted(v, p, c, n))
  {
    assert ChildrenOk(v, p);
    forall q | q in Adopted(v, p, c, n) ensures ChildrenOk(Adopted(v, p, c, n), q) {
      assert q in v ==> ChildrenOk(v, q);
      AdoptingKeepsChildren(v, p, c, n, q);
    }
  }

  function Ended(v: Picture, p: string, word: string, metadata: Metadata): Picture
    requires p in v
  {
    v[p := v[p].(cell := WithWord(ShapeOf(v), p, word, metadata)[p])]
  }

  lemma EndingMarksShape(v: Picture, s: Shape, lower: string -> string, word: string, metadata: Metadata)
    requires "" in s && word != "" && ShapeOf(v) == WithPath(s, lower(word), |lower(word)|) && lower(word) in v
    ensures ShapeOf(Ended(v, lower(word), word, metadata)) == Inserted(s, lower, word, metadata)
  {
  }

  lemma EndingKeepsWired(v: Picture, p: string, word: string, metadata: Metadata)
    requires Wired(v) && p in v
    ensures Wired(Ended(v, p, word, metadata))
  {
    var w := Ended(v, p, word, metadata);
    assert forall q :: q in v ==>
      w[q].node == v[q].node && w[q].children == v[q].children && w[q].cell.order == v[q].cell.order;
    forall q | q in w ensures ChildrenOk(w, q) {
      assert ChildrenOk(v, q);
    }
  }

  /** What every step of an insertion keeps: a tree, rooted where the trie starts. */
  ghost predicate Grounded(v: Picture, root: TrieNode) {
    Wired(v) && v[""].node == root
  }

  /** `if metadata:` */
  function Given(metadata: Metadata): Metadata
    reads metadata
  {
    if metadata != null && metadata.items == map[] then null else metadata
  }

  class Trie {
    const lower: string -> string
    const root: TrieNode
    var size: nat
    /** Every node and what it holds, by the path that leads to it. */
    ghost var picture: Picture
    ghost var owned: set<TrieNode>
    ghost var depth: nat

    /** The picture is up to date. */
    ghost predicate Current()
      reads this`picture, this`owned, owned
    {
      root in owned && forall p {:trigger UpToDate(p)} :: p in picture ==> UpToDate(p)
    }

    ghost predicate UpToDate(p: string)
      requires p in picture
      reads this`picture, this`owned, owned
    {
      picture[p].node in owned && picture[p].node.path == p && picture[p].node.View() == picture[p]
    }

    ghost predicate Valid()
      reads this, owned
    {
      && Current() && Grounded(picture, root)
      && WellShaped(ShapeOf(picture), lower, depth) && size == |Words()|
    }

    /** The map from lower-cased word to entry that the trie stands for. */
    ghost function Words(): map<string, Entry>
      reads this`picture
    {
      Contents(ShapeOf(picture))
    }

    constructor (lower: string -> string)
      ensures Valid() && fresh(owned) && this.lower == lower
      ensures Words() == map[] && size == 0 && ShapeOf(picture) == map["" := NEW_CELL]
    {
      var n := new TrieNode("");
      this.lower, root, size := lower, n, 0;
      picture, owned, depth := map["" := NodeView(n, map[], NEW_CELL)], {n}, 0;
    }

    method AddChild(node: TrieNode, c: char, ghost p: string) returns (n: TrieNode)
      requires Current() && p in picture && picture[p].node == node && p + [c] !in picture
      modifies this`picture, this`owned, node
      ensures Current() && fresh(n) && owned == old(owned) + {n}
      ensures picture == Adopted(old(picture), p, c, n)
    {
      assert UpToDate(p);
      n := node.NewChild(c);
      picture, owned := Adopted(picture, p, c, n), owned + {n};
      forall q | q in picture ensures UpToDate(q) {
        assert q in old(picture) ==> old(UpToDate(q));
      }
    }

    /** The child of `node` for `c`, created when there is none. */
    method Child(node: TrieNode, c: char, ghost p: string) returns (child: TrieNode)
      requires Current() && Grounded(picture, root) && Linked(ShapeOf(picture))
      requires p in picture && picture[p].node == node
      modifies this`picture, this`owned, node
      ensures Current() && Grounded(picture, root) && ShapeOf(picture) == WithChild(old(ShapeOf(picture)), p, c)
      ensures p + [c] in picture && child == picture[p + [c]].node
      ensures fresh(owned - old(owned))
    {
      ghost var v := picture;
      assert UpToDate(p) && ChildrenOk(v, p);
      if c in node.children {
        child := node.children[c];
      } else {
        child := AddChild(node, c, p);
        AdoptingKeepsWired(v, p, c, child);
        AdoptingGrowsShape(v, p, c, child);
      }
    }

    /** Walks down `w` from the root, creating what is missing. */
    method Walk(w: string) returns (node: TrieNode)
      requires Current() && Grounded(picture, root) && Sound(ShapeOf(picture), lower)
      modifies this`picture, this`owned, owned
      ensures Current() && Grounded(picture, root)
      ensures ShapeOf(picture) == WithPath(old(ShapeOf(picture)), w, |w|) && w in picture && node == picture[w].node
      ensures fresh(owned - old(owned))
    {
      ghost var s := ShapeOf(picture);
      node := root;
      var i := 0;
      while i < |w|
        invariant 0 <= i <= |w|
        invariant Current() && Grounded(picture, root)
        invariant ShapeOf(picture) == WithPath(s, w, i) && w[..i] in picture && node == picture[w[..i]].node
        invariant fresh(owned - old(owned))
      {
        PathStep(s, lower, w, i);
        assert UpToDate(w[..i]);
        node := Child(node, w[i], w[..i]);
        i := i + 1;
      }
      assert w[..|w|] == w;
    }

    /** Marks `node` as the end of `word`. */
    method EndWord(node: TrieNode, word: string, metadata: Metadata, ghost p: string)
      requires Current() && p in picture && picture[p].node == node
      modifies this`picture, node`isEnd, node`word, node`metadata
      ensures Current() && picture == Ended(old(picture), p, word, metadata)
    {
      assert UpToDate(p);
      node.isEnd, node.word := true, Some(word);
      if metadata != null {
        node.metadata := metadata;
      }
      picture := Ended(picture, p, word, metadata);
      forall q | q in picture ensures UpToDate(q) {
        assert old(UpToDate(q));
      }
    }

    /** Puts a (non-empty) word into the tree and counts it when it is new. */
    method Place(word: string, metadata: Metadata)
      requires Current() && Grounded(picture, root) && Sound(ShapeOf(picture), lower) && word != ""
      modifies this`picture, this`owned, this`size, owned
      ensures Current() && Grounded(picture, root) && fresh(owned - old(owned))
      ensures ShapeOf(picture) == Inserted(old(ShapeOf(picture)), lower, word, metadata)
      ensures size == old(size) + if lower(word) in old(Words()) then 0 else 1
    {
      ghost var s := ShapeOf(picture);
      var w := lower(word);
      var node := Walk(w);
      EndIsKnown(s, lower, w);
      assert UpToDate(w);
      if !node.isEnd {
        size := size + 1;
      }
      EndingKeepsWired(picture, w, word, metadata);
      EndingMarksShape(picture, s, lower, word, metadata);
      EndWord(node, word, metadata, w);
    }

    /** Inserts a word: an update of the map at the lower-cased word, the empty word excepted. */
    method Insert(word: string, metadata: Metadata)
      requires Valid()
      modifies this, owned
      ensures Valid() && fresh(owned - old(owned))
      ensures Words() == if word == "" then old(Words())
                         else old(Words())[lower(word) := EntryFor(old(Words()), lower(word), word, Given(metadata))]
      ensures ShapeOf(picture) == Inserted(old(ShapeOf(picture)), lower, word, Given(metadata))
    {
      if word == "" { return; }
      ghost var s, d := ShapeOf(picture), depth;
      Place(word, Given(metadata));
      depth := Max(depth, |lower(word)|);
      GrownIsValid(s, d, word, Given(metadata));
    }

    lemma GrownIsValid(s: Shape, d: nat, word: string, metadata: Metadata)
      requires WellShaped(s, lower, d) && word != "" && depth == Max(d, |lower(word)|)
      requires Current() && Grounded(picture, root) && ShapeOf(picture) == Inserted(s, lower, word, metadata)
      requires size == |Contents(s)| + if lower(word) in Contents(s) then 0 else 1
      ensures Valid()
      ensures Words() == Contents(s)[lower(word) := EntryFor(Contents(s), lower(word), word, metadata)]
    {
      InsertedIsWellShaped(s, lower, word, metadata, d);
    }

    method FindNode(prefix: string) returns (node: Option<TrieNode>)
      requires Valid()
      ensures node.Some? <==> prefix in picture
      ensures node.Some? ==> node.value == picture[prefix].node
    {
      ghost var s := ShapeOf(picture);
      var n := root;
      var i := 0;
      while i < |prefix|
        invariant 0 <= i <= |prefix| && prefix[..i] in picture && n == picture[prefix[..i]].node
      {
        assert UpToDate(prefix[..i]) && ChildrenOk(picture, prefix[..i]);
        assert prefix[..i + 1] == prefix[..i] + [prefix[i]];
        if prefix[i] !in n.children {
          NothingBeyond(s, prefix, prefix[..i + 1]);
          return None;
        }
        n := n.children[prefix[i]];
        i := i + 1;
      }
      assert prefix[..|prefix|] == prefix;
      node := Some(n);
    }

    /** Exact search is membership of the lower-cased word. */
    method Search(word: string) returns (found: bool)
      requires Valid()
      ensures found <==> lower(word) in Words()
    {
      var node := FindNode(lower(word));
      EndsAreWords(ShapeOf(picture), lower, lower(word));
      assert node.Some? ==> UpToDate(lower(word));
      found := node.Some? && node.value.isEnd;
    }

    /** A prefix is found exactly when some stored key has it; the empty one always. */
    method HasPrefix(prefix: string) returns (found: bool)
      requires Valid()
      ensures found <==> lower(prefix) == "" || KeyStartsWith(Words(), lower(prefix))
    {
      NodesLeadToWords(ShapeOf(picture), lower, depth, lower(prefix));
      var node := FindNode(lower(prefix));
      found := node.Some?;
    }

    /** What the node at `p` holds, and where its children are. */
    lemma AtNode(p: string)
      requires Valid() && p in picture
      ensures var n, x := picture[p].node, picture[p].cell;
        && n.order == x.order && n.metadata == x.metadata
        && (n.isEnd && n.word.Some? && n.word.value != "" <==> x.isEnd)
        && (x.isEnd ==> n.word.Some? && EntryAt(ShapeOf(picture), p) == Entry(n.word.value, n.metadata))
        && |n.order| == |x.order|
        && forall i :: 0 <= i < |x.order| ==>
             && x.order[i] in n.children && p + [x.order[i]] in picture
             && n.children[x.order[i]] == picture[p + [x.order[i]]].node
    {
      assert UpToDate(p) && ChildrenOk(picture, p) && CellOk(picture[p].cell, p, lower);
    }

    /** Appends what lies at and below `node` to `results`, as far as the limit allows. */
    method Collect<T>(node: TrieNode, item: Entry -> T, results: seq<T>, limit: int, ghost p: string)
      returns (found: seq<T>)
      requires Valid() && p in picture && node == picture[p].node
      ensures found == Collected(ShapeOf(picture), item, results, Keys(ShapeOf(picture), depth, p), limit)
      decreases depth - |p|
    {
      ghost var s := ShapeOf(picture);
      found := results;
      if |found| >= limit { return; }
      AtNode(p);
      if node.isEnd && node.word.Some? && node.word.value != "" {
        found := found + [item(Entry(node.word.value, node.metadata))];
      }
      CollectedHere(s, depth, item, results, p, limit);
      assert s[p].order[0..] == s[p].order;
      for i := 0 to |node.order|
        invariant Collected(s, item, results, Keys(s, depth, p), limit) ==
                  Collected(s, item, found, KeysBelow(s, depth, p, s[p].order[i..]), limit)
      {
        if |found| >= limit { return; }
        CollectedChild(s, depth, item, found, p, i, limit);
        found := Collect(node.children[node.order[i]], item, found, limit, p + [node.order[i]]);
      }
    }

    /** The first `limit` items of the unlimited search, whatever is reported of each word. */
    method FindAllWithPrefix<T>(prefix: string, item: Entry -> T, limit: int) returns (found: seq<T>)
      requires Valid()
      ensures found == Take(ItemsAt(ShapeOf(picture), item, KeysFor(ShapeOf(picture), depth, lower(prefix))), limit)
    {
      var node := FindNode(lower(prefix));
      if node.None? {
        return [];
      }
      found := Collect(node.value, item, [], limit, lower(prefix));
    }

    /** All words, by an explicit stack: the words the recursive traversal reports, in another order. */
    method GetAllWords() returns (words: seq<string>, ghost keys: seq<string>)
      requires Valid()
      ensures words == ItemsAt(ShapeOf(picture), WordOf, keys)
      ensures NoDuplicates(keys) && forall k :: k in keys <==> k in Words()
      ensures multiset(words) == multiset(ItemsAt(ShapeOf(picture), WordOf, Keys(ShapeOf(picture), depth, "")))
    {
      ghost var s := ShapeOf(picture);
      var stack := [root];
      ghost var paths := [""];
      words, keys := [], [];
      NothingVisited(s);
      while stack != []
        invariant Stacked(picture, stack, paths)
        invariant Accounted(s, paths, keys) && words == ItemsAt(s, WordOf, keys)
        decreases |Under(s, paths)|
      {
        var node := stack[|stack| - 1];
        ghost var p, front := paths[|paths| - 1], paths[..|paths| - 1];
        SplitLast(paths);
        AtNode(p);
        VisitingOne(s, lower, front, p, keys);
        ItemsGrow(s, WordOf, keys, p);
        StackingChildren(picture, stack, front, p, node.Children());
        if node.isEnd && node.word.Some? && node.word.value != "" {
          words, keys := words + [node.word.value], keys + [p];
        }
        stack := stack[..|stack| - 1] + node.Children();
        paths := front + ChildPaths(p, s[p].order);
      }
      EverythingVisited(s, lower, depth, WordOf, keys);
    }
  }

  /** `paths` are where the nodes on the stack are. */
  ghost predicate Stacked(v: Picture, stack: seq<TrieNode>, paths: seq<string>) {
    |stack| == |paths| && forall i :: 0 <= i < |paths| ==> paths[i] in v && stack[i] == v[paths[i]].node
  }

  lemma StackingChildren(v: Picture, stack: seq<TrieNode>, front: seq<string>, p: string, kids: seq<TrieNode>)
    requires Stacked(v, stack, front + [p]) && p in v && |kids| == |v[p].cell.order|
    requires forall i :: 0 <= i < |kids| ==>
      p + [v[p].cell.order[i]] in v && kids[i] == v[p + [v[p].cell.order[i]]].node
    ensures Stacked(v, stack[..|stack| - 1] + kids, front + ChildPaths(p, v[p].cell.order))
  {
    var after := front + ChildPaths(p, v[p].cell.order);
    var nodes := stack[..|stack| - 1] + kids;
    forall i | 0 <= i < |after| ensures after[i] in v && nodes[i] == v[after[i]].node {
      if i < |front| {
        assert (front + [p])[i] == after[i];
      } else {
        assert after[i] == p + [v[p].cell.order[i - |front|]];
      }
    }
  }

  function WordOf(e: Entry): string {
    e.word
  }

  lemma OneMoreKey(words: map<string, Entry>, key: string, entry: Entry)
    ensures |words[key := entry]| == |words| + if key in words then 0 else 1
  {
  }

  lemma EndIsKnown(s: Shape, lower: string -> string, w: string)
    requires Sound(s, lower)
    ensures w[..|w|] == w && (WithPath(s, w, |w|)[w].isEnd <==> w in Contents(s))
  {
    PathKeeps(s, lower, w, |w|);
    var m := WithPath(s, w, |w|);
    assert w[..|w|] == w;
    assert CellOk(m[w], w, lower);
    assert w in Contents(m) <==> m[w].isEnd;
  }

  lemma PathStep(s: Shape, lower: string -> string, w: string, i: nat)
    requires Sound(s, lower) && i < |w|
    ensures Linked(WithPath(s, w, i)) && w[..i + 1] == w[..i] + [w[i]]
    ensures WithPath(s, w, i + 1) == WithChild(WithPath(s, w, i), w[..i], w[i])
  {
    PathKeeps(s, lower, w, i);
  }

  lemma InsertedIsWellShaped(s: Shape, lower: string -> string, word: string, metadata: Metadata, depth: nat)
    requires WellShaped(s, lower, depth) && word != ""
    ensures WellShaped(Inserted(s, lower, word, metadata), lower, Max(depth, |lower(word)|))
    ensures var before, after := Contents(s), Contents(Inserted(s, lower, word, metadata));
      && after == before[lower(word) := EntryFor(before, lower(word), word, metadata)]
      && |after| == |before| + if lower(word) in before then 0 else 1
  {
    InsertIsMapUpdate(s, lower, word, metadata);
    InsertKeepsLive(s, lower, word, metadata);
    InsertKeepsBound(s, lower, word, metadata, depth);
    OneMoreKey(Contents(s), lower(word), EntryFor(Contents(s), lower(word), word, metadata));
  }
}

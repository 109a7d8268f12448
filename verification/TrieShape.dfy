/**
 * The pure side of the trie: a trie is a map from paths to cells, and this module says
 * what inserting does to it, which keys it holds and in what order a traversal meets them.
 */
module TrieShape {
  import opened Prelude

  /** A metadata dictionary; a word keeps a reference to the one it was given. */
  class Labels {
    var items: map<string, string>

    constructor ()
      ensures items == map[]
    {
      items := map[];
    }
  }

  /** None is no metadata, or an empty dictionary: the two are treated alike. */
  type Metadata = Labels?

  /** What a word is stored as: its original casing and its metadata. */
  datatype Entry = Entry(word: string, metadata: Metadata)

  /** One node; `order` lists the characters of its children, oldest first, as a Python dict iterates. */
  datatype Cell = Cell(isEnd: bool, word: Option<string>, metadata: Metadata, order: seq<char>)

  /** Every node of a trie, by the path from the root. */
  type Shape = map<string, Cell>

  const NEW_CELL := Cell(false, None, null, [])

  // ---- Well-formed shapes ---------------------------------------------------------------------

  ghost predicate Linked(s: Shape) {
    forall p: string, c: char {:trigger p + [c]} :: p in s ==> (c in s[p].order <==> p + [c] in s)
  }

  ghost predicate Rooted(s: Shape) {
    "" in s && forall p: string, c: char {:trigger p + [c]} :: p + [c] in s ==> p in s
  }

  ghost predicate Bounded(s: Shape, depth: nat) {
    forall p :: p in s ==> |p| <= depth
  }

  predicate NoDuplicates<T(==)>(s: seq<T>) {
    forall i, j :: 0 <= i < j < |s| ==> s[i] != s[j]
  }

  ghost predicate OnceEach(s: Shape) {
    forall p :: p in s ==> NoDuplicates(s[p].order)
  }

  /** A word ends only where its lower-cased form leads; other nodes carry nothing. */
  ghost predicate Marked(s: Shape, lower: string -> string) {
    forall p :: p in s ==> CellOk(s[p], p, lower)
  }

  predicate CellOk(x: Cell, p: string, lower: string -> string) {
    if x.isEnd then x.word.Some? && x.word.value != "" && lower(x.word.value) == p
    else x.word.None? && x.metadata == null
  }

  /** No branch is dead: below every node but the root a word ends. */
  ghost predicate Live(s: Shape) {
    forall p {:trigger LeadsToWord(s, p)} :: p in s && p != "" ==> LeadsToWord(s, p)
  }

  ghost predicate LeadsToWord(s: Shape, p: string) {
    exists k :: k in s && s[k].isEnd && p <= k
  }

  ghost predicate WellShaped(s: Shape, lower: string -> string, depth: nat) {
    Linked(s) && Rooted(s) && Bounded(s, depth) && OnceEach(s) && Marked(s, lower) && Live(s)
  }

  /** The map a trie stands for: lower-cased word to stored entry. */
  function Contents(s: Shape): map<string, Entry> {
    map k | k in s && s[k].isEnd && s[k].word.Some? :: Entry(s[k].word.value, s[k].metadata)
  }

  // ---- Inserting ----------------------------------------------------------------------------------

  /** The child of `p` for `c`, created when there is none. */
  function WithChild(s: Shape, p: string, c: char): Shape
    requires p in s
  {
    if p + [c] in s then s else s[p := s[p].(order := s[p].order + [c])][p + [c] := NEW_CELL]
  }

  /** All nodes on the way to the first `n` characters of `w`. */
  function WithPath(s: Shape, w: string, n: nat): (t: Shape)
    requires "" in s && n <= |w|
    ensures w[..n] in t && "" in t
  {
    if n == 0 then s else
      var t := WithPath(s, w, n - 1);
      assert w[..n] == w[..n - 1] + [w[n - 1]];
      WithChild(t, w[..n - 1], w[n - 1])
  }

  /** Ending `word` at `p`; without metadata the node keeps its own. */
  function WithWord(s: Shape, p: string, word: string, metadata: Metadata): Shape
    requires p in s
  {
    var kept := if metadata == null then s[p].metadata else metadata;
    s[p := s[p].(isEnd := true, word := Some(word), metadata := kept)]
  }

  function Inserted(s: Shape, lower: string -> string, word: string, metadata: Metadata): Shape
    requires "" in s
  {
    if word == "" then s
    else
      var w := lower(word);
      assert w[..|w|] == w;
      WithWord(WithPath(s, w, |w|), w, word, metadata)
  }

  lemma ChildKeepsLinks(s: Shape, p: string, c: char)
    requires p in s && Linked(s) && Rooted(s)
    ensures Linked(WithChild(s, p, c)) && Rooted(WithChild(s, p, c))
  {
    var t := WithChild(s, p, c);
    if p + [c] !in s {
      forall q: string, d: char | q in t ensures d in t[q].order <==> q + [d] in t {
        assert (q + [d])[..|q|] == q && (q + [d])[|q|] == d;
        assert (p + [c])[..|p|] == p && (p + [c])[|p|] == c;
      }
      forall q: string, d: char | q + [d] in t ensures q in t {
        assert (q + [d])[..|q|] == q && (p + [c])[..|p|] == p;
      }
    }
  }

  lemma ChildKeepsOrder(s: Shape, p: string, c: char)
    requires p in s && Linked(s) && OnceEach(s)
    ensures OnceEach(WithChild(s, p, c))
  {
  }

  lemma ChildKeepsMarks(s: Shape, lower: string -> string, p: string, c: char)
    requires p in s && Marked(s, lower)
    ensures Marked(WithChild(s, p, c), lower) && Contents(WithChild(s, p, c)) == Contents(s)
  {
  }

  ghost predicate Sound(s: Shape, lower: string -> string) {
    Linked(s) && Rooted(s) && OnceEach(s) && Marked(s, lower)
  }

  lemma {:induction false} PathKeeps(s: Shape, lower: string -> string, w: string, n: nat)
    requires Sound(s, lower) && n <= |w|
    ensures Sound(WithPath(s, w, n), lower) && Contents(WithPath(s, w, n)) == Contents(s)
  {
    if n > 0 {
      PathKeeps(s, lower, w, n - 1);
      var t := WithPath(s, w, n - 1);
      ChildKeepsLinks(t, w[..n - 1], w[n - 1]);
      ChildKeepsOrder(t, w[..n - 1], w[n - 1]);
      ChildKeepsMarks(t, lower, w[..n - 1], w[n - 1]);
    }
  }

  /** Walking a path adds only prefixes of it. */
  lemma {:induction false} PathAddsPrefixes(s: Shape, w: string, n: nat, p: string)
    requires "" in s && n <= |w| && p in WithPath(s, w, n)
    ensures p in s || p <= w
    ensures p in s ==> WithPath(s, w, n)[p].isEnd == s[p].isEnd
  {
    if n > 0 {
      var t := WithPath(s, w, n - 1);
      assert w[..n] == w[..n - 1] + [w[n - 1]];
      if p in t {
        PathAddsPrefixes(s, w, n - 1, p);
      }
      if p in s && p !in t {
        PathIsKept(s, w, n - 1, p);
      }
    }
  }

  lemma {:induction false} PathIsKept(s: Shape, w: string, n: nat, p: string)
    requires "" in s && n <= |w| && p in s
    ensures p in WithPath(s, w, n)
  {
    if n > 0 {
      PathIsKept(s, w, n - 1, p);
    }
  }

  lemma WordKeepsLinks(s: Shape, p: string, word: string, metadata: Metadata)
    requires p in s && Linked(s) && Rooted(s) && OnceEach(s)
    ensures var t := WithWord(s, p, word, metadata); Linked(t) && Rooted(t) && OnceEach(t)
  {
  }

  lemma InsertKeepsLive(s: Shape, lower: string -> string, word: string, metadata: Metadata)
    requires "" in s && Live(s) && word != ""
    ensures Live(Inserted(s, lower, word, metadata))
  {
    var w := lower(word);
    assert w[..|w|] == w;
    var m := WithPath(s, w, |w|);
    var t := Inserted(s, lower, word, metadata);
    forall p | p in t && p != "" ensures LeadsToWord(t, p) {
      PathAddsPrefixes(s, w, |w|, p);
      if p in s {
        assert LeadsToWord(s, p);
        var k :| k in s && s[k].isEnd && p <= k;
        PathIsKept(s, w, |w|, k);
        PathAddsPrefixes(s, w, |w|, k);
        assert t[k].isEnd;
      } else {
        assert t[w].isEnd;
      }
    }
  }

  lemma InsertKeepsBound(s: Shape, lower: string -> string, word: string, metadata: Metadata, depth: nat)
    requires "" in s && Bounded(s, depth)
    ensures Bounded(Inserted(s, lower, word, metadata), Max(depth, |lower(word)|))
  {
    if word != "" {
      var w := lower(word);
      assert w[..|w|] == w;
      forall p | p in WithPath(s, w, |w|) ensures |p| <= Max(depth, |w|) {
        PathAddsPrefixes(s, w, |w|, p);
      }
    }
  }

  /** The entry an insertion leaves under the word's key. */
  function EntryFor(contents: map<string, Entry>, key: string, word: string, metadata: Metadata): Entry {
    Entry(word, if metadata == null && key in contents then contents[key].metadata else metadata)
  }

  /**
   * Inserting refines a map update on the lower-cased word, with the newest casing, and with the
   * old metadata kept when none is given; the empty word is ignored.
   */
  lemma InsertIsMapUpdate(s: Shape, lower: string -> string, word: string, metadata: Metadata)
    requires Sound(s, lower)
    ensures Sound(Inserted(s, lower, word, metadata), lower)
    ensures Contents(Inserted(s, lower, word, metadata)) ==
      if word == "" then Contents(s) else Contents(s)[lower(word) := EntryFor(Contents(s), lower(word), word, metadata)]
  {
    if word != "" {
      var w := lower(word);
      assert w[..|w|] == w;
      var m := WithPath(s, w, |w|);
      PathKeeps(s, lower, w, |w|);
      WordKeepsLinks(m, w, word, metadata);
      WordUpdates(m, lower, word, metadata);
    }
  }

  lemma WordUpdates(s: Shape, lower: string -> string, word: string, metadata: Metadata)
    requires Marked(s, lower) && word != "" && lower(word) in s
    ensures var t := WithWord(s, lower(word), word, metadata);
      && Marked(t, lower)
      && Contents(t) == Contents(s)[lower(word) := EntryFor(Contents(s), lower(word), word, metadata)]
  {
  }

  // ---- Keys and traversal orders -------------------------------------------------------------------

  /** The keys at and below `p`, in the order a recursive traversal meets them. */
  ghost function Keys(s: Shape, depth: nat, p: string): seq<string>
    requires p in s && Linked(s) && Bounded(s, depth)
    decreases depth - |p|, |s[p].order| + 1
  {
    (if s[p].isEnd then [p] else []) + KeysBelow(s, depth, p, s[p].order)
  }

  ghost function KeysBelow(s: Shape, depth: nat, p: string, cs: seq<char>): seq<string>
    requires p in s && Linked(s) && Bounded(s, depth)
    requires forall c :: c in cs ==> c in s[p].order
    decreases depth - |p|, |cs|
  {
    if cs == [] then [] else Keys(s, depth, p + [cs[0]]) + KeysBelow(s, depth, p, cs[1..])
  }

  lemma NothingBeyond(s: Shape, k: string, p: string)
    requires Rooted(s) && p !in s && p <= k
    ensures k !in s
  {
    if k in s {
      PrefixesAreNodes(s, k, p);
    }
  }

  lemma {:induction false} PrefixesAreNodes(s: Shape, k: string, p: string)
    requires Rooted(s) && k in s && p <= k
    ensures p in s
    decreases |k|
  {
    if p != k {
      assert k == k[..|k| - 1] + [k[|k| - 1]];
      PrefixesAreNodes(s, k[..|k| - 1], p);
    }
  }

  lemma {:induction false} KeysAreExtensions(s: Shape, depth: nat, p: string, k: string)
    requires p in s && Linked(s) && Rooted(s) && Bounded(s, depth)
    ensures k in Keys(s, depth, p) <==> k in s && s[k].isEnd && p <= k
    decreases depth - |p|, |s[p].order| + 1
  {
    KeysBelowAreExtensions(s, depth, p, s[p].order, k);
    ChildOnTheWay(s, p, k);
    KeysAtNode(s, depth, p, k);
    assert p <= k <==> p < k || p == k;
  }

  lemma KeysAtNode(s: Shape, depth: nat, p: string, k: string)
    requires p in s && Linked(s) && Bounded(s, depth)
    ensures k in Keys(s, depth, p) <==> (s[p].isEnd && k == p) || k in KeysBelow(s, depth, p, s[p].order)
  {
  }

  lemma ChildOnTheWay(s: Shape, p: string, k: string)
    requires p in s && Linked(s) && Rooted(s)
    ensures k in s && p < k ==> k[|p|] in s[p].order
  {
    if k in s && p < k {
      PrefixesAreNodes(s, k, k[..|p| + 1]);
      assert k[..|p| + 1] == p + [k[|p|]];
    }
  }

  lemma {:induction false} KeysBelowAreExtensions(s: Shape, depth: nat, p: string, cs: seq<char>, k: string)
    requires p in s && Linked(s) && Rooted(s) && Bounded(s, depth)
    requires forall c :: c in cs ==> c in s[p].order
    ensures k in KeysBelow(s, depth, p, cs) <==> k in s && s[k].isEnd && p < k && k[|p|] in cs
    decreases depth - |p|, |cs|
  {
    if cs != [] {
      var q := p + [cs[0]];
      KeysAreExtensions(s, depth, q, k);
      KeysBelowAreExtensions(s, depth, p, cs[1..], k);
      StartsWithChild(p, cs[0], k);
      KeysInChildren(s, depth, p, cs, k);
    }
  }

  lemma KeysInChildren(s: Shape, depth: nat, p: string, cs: seq<char>, k: string)
    requires p in s && Linked(s) && Bounded(s, depth) && cs != []
    requires forall c :: c in cs ==> c in s[p].order
    ensures p + [cs[0]] in s && (forall c :: c in cs <==> c == cs[0] || c in cs[1..])
    ensures k in KeysBelow(s, depth, p, cs) <==>
      k in Keys(s, depth, p + [cs[0]]) || k in KeysBelow(s, depth, p, cs[1..])
  {
  }

  lemma StartsWithChild(p: string, c: char, k: string)
    ensures p + [c] <= k <==> p < k && k[|p|] == c
  {
  }

  lemma DisjointConcat<T>(a: seq<T>, b: seq<T>)
    requires NoDuplicates(a) && NoDuplicates(b) && forall x :: x in a ==> x !in b
    ensures NoDuplicates(a + b)
  {
    forall i, j | 0 <= i < j < |a + b| ensures (a + b)[i] != (a + b)[j] {
      if i < |a| <= j {
        assert (a + b)[i] in a && (a + b)[j] in b;
      }
    }
  }

  lemma {:induction false} KeysOnce(s: Shape, depth: nat, p: string)
    requires p in s && Linked(s) && Rooted(s) && Bounded(s, depth) && OnceEach(s)
    ensures NoDuplicates(Keys(s, depth, p))
    decreases depth - |p|, |s[p].order| + 1
  {
    KeysBelowOnce(s, depth, p, s[p].order);
    KeysBelowAreExtensions(s, depth, p, s[p].order, p);
  }

  lemma {:induction false} KeysBelowOnce(s: Shape, depth: nat, p: string, cs: seq<char>)
    requires p in s && Linked(s) && Rooted(s) && Bounded(s, depth) && OnceEach(s)
    requires NoDuplicates(cs) && forall c :: c in cs ==> c in s[p].order
    ensures NoDuplicates(KeysBelow(s, depth, p, cs))
    decreases depth - |p|, |cs|
  {
    if cs != [] {
      var q := p + [cs[0]];
      KeysOnce(s, depth, q);
      KeysBelowOnce(s, depth, p, cs[1..]);
      forall k | k in Keys(s, depth, q) ensures k !in KeysBelow(s, depth, p, cs[1..]) {
        KeysAreExtensions(s, depth, q, k);
        KeysBelowAreExtensions(s, depth, p, cs[1..], k);
      }
      DisjointConcat(Keys(s, depth, q), KeysBelow(s, depth, p, cs[1..]));
    }
  }

  ghost predicate KeyStartsWith(contents: map<string, Entry>, p: string) {
    exists k :: k in contents && p <= k
  }

  lemma EndsAreWords(s: Shape, lower: string -> string, k: string)
    requires Marked(s, lower)
    ensures k in s && s[k].isEnd <==> k in Contents(s)
  {
  }

  /** A trie has a node for `p` exactly when some stored key starts with `p`; the root is always there. */
  lemma NodesLeadToWords(s: Shape, lower: string -> string, depth: nat, p: string)
    requires WellShaped(s, lower, depth)
    ensures p in s <==> p == "" || KeyStartsWith(Contents(s), p)
  {
    if p in s && p != "" {
      assert LeadsToWord(s, p);
      var k :| k in s && s[k].isEnd && p <= k;
      assert CellOk(s[k], k, lower);
      assert k in Contents(s);
    }
    forall k | k in Contents(s) && p <= k ensures p in s {
      PrefixesAreNodes(s, k, p);
    }
  }

  ghost function EntryAt(s: Shape, k: string): Entry {
    if k in Contents(s) then Contents(s)[k] else Entry("", null)
  }

  /** What a collector reports for `keys`, in that order. */
  ghost function ItemsAt<T>(s: Shape, item: Entry -> T, keys: seq<string>): seq<T> {
    seq(|keys|, i requires 0 <= i < |keys| => item(EntryAt(s, keys[i])))
  }

  lemma SplitLast<T>(a: seq<T>)
    requires a != []
    ensures a == a[..|a| - 1] + [a[|a| - 1]]
  {
  }

  lemma ItemsGrow<T>(s: Shape, item: Entry -> T, keys: seq<string>, k: string)
    ensures ItemsAt(s, item, keys + [k]) == ItemsAt(s, item, keys) + [item(EntryAt(s, k))]
  {
  }

  /** What a collector leaves of a list it was given, when it meets `keys`. */
  ghost function Collected<T>(s: Shape, item: Entry -> T, results: seq<T>, keys: seq<string>, limit: int): seq<T> {
    results + Take(ItemsAt(s, item, keys), limit - |results|)
  }

  lemma CollectedInTwo<T>(s: Shape, item: Entry -> T, results: seq<T>, a: seq<string>, b: seq<string>, limit: int)
    ensures Collected(s, item, results, a + b, limit) ==
      Collected(s, item, Collected(s, item, results, a, limit), b, limit)
  {
  }

  /** Reporting the word that ends at `p` leaves the keys below it to report. */
  lemma CollectedHere<T>(s: Shape, depth: nat, item: Entry -> T, results: seq<T>, p: string, limit: int)
    requires p in s && Linked(s) && Bounded(s, depth) && |results| < limit
    ensures var own := if s[p].isEnd then results + [item(EntryAt(s, p))] else results;
      Collected(s, item, results, Keys(s, depth, p), limit) ==
      Collected(s, item, own, KeysBelow(s, depth, p, s[p].order), limit)
  {
    if s[p].isEnd {
      CollectedInTwo(s, item, results, [p], KeysBelow(s, depth, p, s[p].order), limit);
      assert ItemsAt(s, item, [p]) == [item(EntryAt(s, p))];
    } else {
      assert [] + KeysBelow(s, depth, p, s[p].order) == KeysBelow(s, depth, p, s[p].order);
    }
  }

  /** Reporting the keys below one child leaves the later children to report. */
  lemma CollectedChild<T>(s: Shape, depth: nat, item: Entry -> T, results: seq<T>, p: string, i: nat, limit: int)
    requires p in s && Linked(s) && Bounded(s, depth) && i < |s[p].order|
    ensures p + [s[p].order[i]] in s
    ensures Collected(s, item, results, KeysBelow(s, depth, p, s[p].order[i..]), limit) ==
      Collected(s, item, Collected(s, item, results, Keys(s, depth, p + [s[p].order[i]]), limit),
                KeysBelow(s, depth, p, s[p].order[i + 1..]), limit)
  {
    var cs := s[p].order[i..];
    assert cs[0] == s[p].order[i] && cs[1..] == s[p].order[i + 1..];
    CollectedInTwo(s, item, results, Keys(s, depth, p + [cs[0]]), KeysBelow(s, depth, p, cs[1..]), limit);
  }

  /** The keys a search for `prefix` (already lower-cased) meets when it has no limit. */
  ghost function KeysFor(s: Shape, depth: nat, prefix: string): seq<string>
    requires Linked(s) && Bounded(s, depth)
  {
    if prefix in s then Keys(s, depth, prefix) else []
  }

  /**
   * An unlimited prefix search meets exactly the matching keys of the map, each once, and
   * reports for each the entry stored there.
   */
  lemma MatchesAreTheWords(s: Shape, lower: string -> string, depth: nat, prefix: string)
    requires WellShaped(s, lower, depth)
    ensures NoDuplicates(KeysFor(s, depth, prefix))
    ensures forall k :: k in KeysFor(s, depth, prefix) <==> k in Contents(s) && prefix <= k
  {
    if prefix in s {
      KeysOnce(s, depth, prefix);
      forall k ensures k in Keys(s, depth, prefix) <==> k in Contents(s) && prefix <= k {
        KeysAreExtensions(s, depth, prefix, k);
        assert k in s ==> CellOk(s[k], k, lower);
      }
    } else {
      NodesLeadToWords(s, lower, depth, prefix);
    }
  }

  // ---- The explicit-stack traversal ----------------------------------------------------------------

  /** The nodes at or below one of `paths`. */
  ghost function Under(s: Shape, paths: seq<string>): set<string> {
    set p | p in s && exists i :: 0 <= i < |paths| && paths[i] <= p
  }

  predicate Apart(p: string, q: string) {
    !(p <= q) && !(q <= p)
  }

  /** No path on the stack lies below another. */
  predicate Antichain(paths: seq<string>) {
    forall i, j :: 0 <= i < j < |paths| ==> Apart(paths[i], paths[j])
  }

  function ChildPaths(p: string, cs: seq<char>): seq<string> {
    seq(|cs|, i requires 0 <= i < |cs| => p + [cs[i]])
  }

  lemma ExpandingKeepsApart(s: Shape, front: seq<string>, p: string)
    requires p in s && OnceEach(s) && Antichain(front + [p])
    ensures Antichain(front + ChildPaths(p, s[p].order))
  {
    var cs := s[p].order;
    var all := front + ChildPaths(p, cs);
    forall i, j | 0 <= i < j < |all| ensures Apart(all[i], all[j]) {
      if j < |front| {
        assert Apart((front + [p])[i], (front + [p])[j]);
      } else if i < |front| {
        assert Apart((front + [p])[i], (front + [p])[|front|]);
        PrefixesOfChild(front[i], p, cs[j - |front|]);
      } else {
        assert all[i][|p|] != all[j][|p|];
      }
    }
  }

  lemma PrefixesOfChild(q: string, p: string, c: char)
    ensures q <= p + [c] ==> q <= p || p <= q
    ensures p + [c] <= q ==> p <= q
  {
  }

  /** Replacing a node by its children on the stack leaves exactly that node visited. */
  lemma ExpandingVisitsOne(s: Shape, front: seq<string>, p: string)
    requires p in s && Linked(s) && Rooted(s) && Antichain(front + [p])
    ensures Under(s, front + ChildPaths(p, s[p].order)) == Under(s, front + [p]) - {p} && p in Under(s, front + [p])
  {
    var cs := s[p].order;
    var before, after := front + [p], front + ChildPaths(p, cs);
    assert before[|front|] == p;
    forall q | q in Under(s, after) ensures q in Under(s, before) && q != p {
      var i :| 0 <= i < |after| && after[i] <= q;
      if i < |front| {
        assert before[i] <= q && Apart(before[i], before[|front|]);
      } else {
        assert after[i] == p + [cs[i - |front|]];
        assert p <= q;
      }
    }
    forall q | q in Under(s, before) && q != p ensures q in Under(s, after) {
      var i :| 0 <= i < |before| && before[i] <= q;
      if i < |front| {
        assert after[i] <= q;
      } else {
        assert p < q;
        ChildOnTheWay(s, p, q);
        var j :| 0 <= j < |cs| && cs[j] == q[|p|];
        assert after[|front| + j] == p + [q[|p|]] <= q;
      }
    }
  }

  lemma MultisetWithout<T>(a: seq<T>, j: nat)
    requires j < |a|
    ensures multiset(a) == multiset(a[..j] + a[j + 1..]) + multiset{a[j]}
  {
    assert a == a[..j] + [a[j]] + a[j + 1..];
  }

  /** The bookkeeping of the traversal: what it has reported is what no longer lies under the stack, each key once. */
  ghost predicate Accounted(s: Shape, paths: seq<string>, keys: seq<string>) {
    && NoDuplicates(keys) && Antichain(paths)
    && forall k :: k in keys <==> k in Contents(s) && k !in Under(s, paths)
  }

  lemma VisitingOne(s: Shape, lower: string -> string, front: seq<string>, p: string, keys: seq<string>)
    requires Sound(s, lower) && p in s && Accounted(s, front + [p], keys)
    ensures Accounted(s, front + ChildPaths(p, s[p].order), if s[p].isEnd then keys + [p] else keys)
    ensures |Under(s, front + ChildPaths(p, s[p].order))| < |Under(s, front + [p])|
  {
    ExpandingKeepsApart(s, front, p);
    ExpandingVisitsOne(s, front, p);
    var before, after := Under(s, front + [p]), Under(s, front + ChildPaths(p, s[p].order));
    assert after == before - {p} && p in before;
    assert CellOk(s[p], p, lower) && (p in Contents(s) <==> s[p].isEnd);
    assert p !in keys;
  }

  lemma NothingVisited(s: Shape)
    ensures Accounted(s, [""], [])
  {
    forall k | k in Contents(s) ensures k in Under(s, [""]) {
      assert [""][0] <= k;
    }
  }

  /** Once the stack is empty, what was reported is what the recursive traversal reports, up to order. */
  lemma EverythingVisited<T>(s: Shape, lower: string -> string, depth: nat, item: Entry -> T, keys: seq<string>)
    requires WellShaped(s, lower, depth) && Accounted(s, [], keys)
    ensures multiset(ItemsAt(s, item, keys)) == multiset(ItemsAt(s, item, Keys(s, depth, "")))
    ensures forall k :: k in keys <==> k in Contents(s)
  {
    assert Under(s, []) == {};
    MatchesAreTheWords(s, lower, depth, "");
    SameItemsSameMultiset(keys, Keys(s, depth, ""));
    SameKeysSameItems(s, item, keys, Keys(s, depth, ""));
  }

  /** Taking the same item out of two listings of the same items leaves listings of the same items. */
  lemma SameWithout<T>(a: seq<T>, b: seq<T>, j: nat)
    requires a != [] && j < |b| && b[j] == a[0] && multiset(a) == multiset(b)
    ensures multiset(a[1..]) == multiset(b[..j] + b[j + 1..])
  {
    MultisetWithout(a, 0);
    MultisetWithout(b, j);
    assert a[..0] + a[1..] == a[1..];
    var x, y := multiset(a[1..]), multiset(b[..j] + b[j + 1..]);
    assert x == (x + multiset{a[0]}) - multiset{a[0]};
    assert y == (y + multiset{a[0]}) - multiset{a[0]};
  }

  lemma ItemsWithout<T>(s: Shape, item: Entry -> T, a: seq<string>, j: nat)
    requires j < |a|
    ensures multiset(ItemsAt(s, item, a)) ==
      multiset(ItemsAt(s, item, a[..j] + a[j + 1..])) + multiset{item(EntryAt(s, a[j]))}
  {
    MultisetWithout(ItemsAt(s, item, a), j);
    assert ItemsAt(s, item, a)[..j] + ItemsAt(s, item, a)[j + 1..] == ItemsAt(s, item, a[..j] + a[j + 1..]);
  }

  lemma {:induction false} SameKeysSameItems<T>(s: Shape, item: Entry -> T, a: seq<string>, b: seq<string>)
    requires multiset(a) == multiset(b)
    ensures multiset(ItemsAt(s, item, a)) == multiset(ItemsAt(s, item, b))
  {
    if a == [] {
      assert |multiset(b)| == 0;
    } else {
      assert a[0] in multiset(b);
      var j :| 0 <= j < |b| && b[j] == a[0];
      SameWithout(a, b, j);
      SameKeysSameItems(s, item, a[1..], b[..j] + b[j + 1..]);
      ItemsWithout(s, item, a, 0);
      assert a[..0] + a[1..] == a[1..];
      ItemsWithout(s, item, b, j);
    }
  }

  /** Two duplicate-free sequences of the same items differ only in their order. */
  lemma {:induction false} SameItemsSameMultiset<T>(a: seq<T>, b: seq<T>)
    requires NoDuplicates(a) && NoDuplicates(b) && forall x :: x in a <==> x in b
    ensures multiset(a) == multiset(b)
  {
    forall x: T ensures multiset(a)[x] == multiset(b)[x] {
      CountsOnce(a, x);
      CountsOnce(b, x);
    }
  }

  lemma {:induction false} CountsOnce<T>(a: seq<T>, x: T)
    requires NoDuplicates(a)
    ensures multiset(a)[x] == if x in a then 1 else 0
  {
    if a != [] {
      assert a == [a[0]] + a[1..];
      CountsOnce(a[1..], x);
    }
  }
}

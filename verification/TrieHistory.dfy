/**
 * The trie over whole histories of insertions: which words it holds, in which casing and with which
 * metadata, and in which order a search reports them, told by the insertions alone.
 */
module TrieHistory {
  import opened Prelude
  import opened TrieShape

  datatype Insertion = Insertion(word: string, metadata: Metadata)

  type Run = seq<Insertion>

  const ROOT: Shape := map["" := NEW_CELL]

  function After(lower: string -> string, run: Run): (s: Shape)
    ensures "" in s
  {
    if run == [] then ROOT
    else
      var s, last := After(lower, run[..|run| - 1]), run[|run| - 1];
      if last.word == "" then s
      else
        var w := lower(last.word);
        assert w[..|w|] == w;
        Inserted(s, lower, last.word, last.metadata)
  }

  // ---- By the insertions alone -------------------------------------------------------------------

  /** The insertion stores a word under `key`. */
  predicate Stores(i: Insertion, lower: string -> string, key: string) {
    i.word != "" && lower(i.word) == key
  }

  /** The casing stored last under `key`. */
  function LastWord(lower: string -> string, run: Run, key: string): Option<string> {
    if run == [] then None
    else if Stores(run[|run| - 1], lower, key) then Some(run[|run| - 1].word)
    else LastWord(lower, run[..|run| - 1], key)
  }

  /** The metadata given last with a word under `key`, if any was given. */
  function LastMetadata(lower: string -> string, run: Run, key: string): Metadata {
    if run == [] then null
    else if Stores(run[|run| - 1], lower, key) && run[|run| - 1].metadata != null then run[|run| - 1].metadata
    else LastMetadata(lower, run[..|run| - 1], key)
  }

  lemma {:induction false} StaysSound(lower: string -> string, run: Run)
    ensures Sound(After(lower, run), lower)
  {
    if run != [] {
      StaysSound(lower, run[..|run| - 1]);
      InsertIsMapUpdate(After(lower, run[..|run| - 1]), lower, run[|run| - 1].word, run[|run| - 1].metadata);
    }
  }

  lemma {:induction false} NothingStoredNoMetadata(lower: string -> string, run: Run, key: string)
    ensures LastWord(lower, run, key).None? ==> LastMetadata(lower, run, key) == null
  {
    if run != [] {
      NothingStoredNoMetadata(lower, run[..|run| - 1], key);
    }
  }

  /** A key holds the casing stored last under it and the metadata given last, and nothing else is a key. */
  lemma {:induction false} HoldsWhatWasInserted(lower: string -> string, run: Run, key: string)
    ensures var words, word := Contents(After(lower, run)), LastWord(lower, run, key);
      && (key in words <==> word.Some?)
      && (key in words ==> words[key] == Entry(word.value, LastMetadata(lower, run, key)))
  {
    if run != [] {
      var front, last := run[..|run| - 1], run[|run| - 1];
      HoldsWhatWasInserted(lower, front, key);
      NothingStoredNoMetadata(lower, front, key);
      StaysSound(lower, front);
      InsertIsMapUpdate(After(lower, front), lower, last.word, last.metadata);
    }
  }

  // ---- The order of a search -----------------------------------------------------------------------

  /** The insertion creates or passes the node at `p`. */
  predicate Reaches(i: Insertion, lower: string -> string, p: string) {
    i.word != "" && p <= lower(i.word)
  }

  /** The first insertion that reaches `p`; the length of the run if none does. */
  function FirstReach(lower: string -> string, run: Run, p: string): (i: nat)
    ensures i <= |run|
  {
    if run == [] then 0
    else
      var i := FirstReach(lower, run[..|run| - 1], p);
      if i < |run| - 1 || Reaches(run[|run| - 1], lower, p) then i else |run|
  }

  lemma {:induction false} FirstReachIs(lower: string -> string, run: Run, p: string)
    ensures var i := FirstReach(lower, run, p);
      && (i < |run| ==> Reaches(run[i], lower, p))
      && forall j :: 0 <= j < i ==> !Reaches(run[j], lower, p)
  {
    if run != [] {
      var front, n := run[..|run| - 1], |run| - 1;
      FirstReachIs(lower, front, p);
      forall j | 0 <= j < FirstReach(lower, run, p) ensures !Reaches(run[j], lower, p) {
        if j < n {
          assert front[j] == run[j];
        }
      }
    }
  }

  lemma {:induction false} PathHasPrefixes(s: Shape, w: string, m: nat, n: nat)
    requires "" in s && m <= n <= |w|
    ensures w[..m] in WithPath(s, w, n)
    decreases n
  {
    if m < n {
      PathHasPrefixes(s, w, m, n - 1);
    }
  }

  /** What has been reached is a node. */
  lemma {:induction false} ReachedIsNode(lower: string -> string, run: Run, p: string)
    requires FirstReach(lower, run, p) < |run|
    ensures p in After(lower, run)
  {
    var front, last := run[..|run| - 1], run[|run| - 1];
    if FirstReach(lower, front, p) < |front| {
      ReachedIsNode(lower, front, p);
    }
    if last.word != "" {
      var w := lower(last.word);
      assert w[..|w|] == w;
      if p in After(lower, front) {
        PathIsKept(After(lower, front), w, |w|, p);
      } else {
        assert p == w[..|p|];
        PathHasPrefixes(After(lower, front), w, |p|, |w|);
      }
    }
  }

  function Children(s: Shape, q: string): seq<char> {
    if q in s then s[q].order else []
  }

  /** The children of `q` are those before, or one more at the end, new and on the way to `w`. */
  ghost predicate OneMoreChild(s: Shape, after: seq<char>, w: string, n: nat, q: string) {
    || after == Children(s, q)
    || (|q| < n <= |w| && q == w[..|q|] && q + [w[|q|]] !in s && after == Children(s, q) + [w[|q|]])
  }

  lemma {:induction false} PathAddsOneChild(s: Shape, w: string, n: nat, q: string)
    requires "" in s && n <= |w|
    ensures OneMoreChild(s, Children(WithPath(s, w, n), q), w, n, q)
    ensures q in s ==> q in WithPath(s, w, n)
  {
    if n > 0 {
      PathAddsOneChild(s, w, n - 1, q);
      var p, c := w[..n - 1], w[n - 1];
      if p + [c] in s {
        PathIsKept(s, w, n - 1, p + [c]);
      }
      if q in s {
        PathIsKept(s, w, n - 1, q);
      }
    }
  }

  lemma InsertAddsOneChild(s: Shape, lower: string -> string, word: string, metadata: Metadata, q: string)
    requires "" in s && word != ""
    ensures var w := lower(word);
      OneMoreChild(s, Children(Inserted(s, lower, word, metadata), q), w, |w|, q)
  {
    var w := lower(word);
    assert w[..|w|] == w;
    PathAddsOneChild(s, w, |w|, q);
  }

  /** The children `cs` of `q` stand in the order in which insertions first reached them. */
  ghost predicate AsReached(lower: string -> string, run: Run, q: string, cs: seq<char>) {
    && (forall i :: 0 <= i < |cs| ==> FirstReach(lower, run, q + [cs[i]]) < |run|)
    && forall i, j :: 0 <= i < j < |cs| ==>
         FirstReach(lower, run, q + [cs[i]]) < FirstReach(lower, run, q + [cs[j]])
  }

  lemma ReachedFirstByLast(lower: string -> string, run: Run, p: string)
    requires run != [] && Reaches(run[|run| - 1], lower, p) && p !in After(lower, run[..|run| - 1])
    ensures FirstReach(lower, run, p) == |run| - 1
  {
    var front := run[..|run| - 1];
    if FirstReach(lower, front, p) < |front| {
      ReachedIsNode(lower, front, p);
    }
  }

  lemma {:induction false} ChildrenInOrder(lower: string -> string, run: Run, q: string)
    ensures AsReached(lower, run, q, Children(After(lower, run), q))
  {
    if run != [] {
      var front, last := run[..|run| - 1], run[|run| - 1];
      ChildrenInOrder(lower, front, q);
      var s, cs := After(lower, front), Children(After(lower, front), q);
      assert AsReached(lower, run, q, cs);
      if last.word != "" {
        var w := lower(last.word);
        InsertAddsOneChild(s, lower, last.word, last.metadata, q);
        var after := Children(After(lower, run), q);
        if after != cs {
          var c := w[|q|];
          assert q + [c] == w[..|q| + 1];
          ReachedFirstByLast(lower, run, q + [c]);
        }
      }
    }
  }

  // ---- Traversals ---------------------------------------------------------------------------------------

  /** `x` is met before `y`: it is a proper prefix, or where they part its branch is the earlier child. */
  ghost predicate Precedes(s: Shape, x: string, y: string) {
    x < y || exists q, i, j :: Parts(s, q, i, j, x, y)
  }

  ghost predicate Parts(s: Shape, q: string, i: nat, j: nat, x: string, y: string) {
    && q in s && i < j < |s[q].order|
    && q + [s[q].order[i]] <= x && q + [s[q].order[j]] <= y
  }

  ghost predicate Ordered(s: Shape, keys: seq<string>) {
    forall i, j :: 0 <= i < j < |keys| ==> Precedes(s, keys[i], keys[j])
  }

  lemma OrderedInTwo(s: Shape, a: seq<string>, b: seq<string>)
    requires Ordered(s, a) && Ordered(s, b) && forall x, y :: x in a && y in b ==> Precedes(s, x, y)
    ensures Ordered(s, a + b)
  {
    forall i, j | 0 <= i < j < |a + b| ensures Precedes(s, (a + b)[i], (a + b)[j]) {
      if i < |a| <= j {
        assert (a + b)[i] in a && (a + b)[j] in b;
      }
    }
  }

  lemma {:induction false} KeysAreOrdered(s: Shape, depth: nat, p: string)
    requires p in s && Linked(s) && Rooted(s) && Bounded(s, depth) && OnceEach(s)
    ensures Ordered(s, Keys(s, depth, p))
    decreases depth - |p|, |s[p].order| + 1
  {
    assert s[p].order[0..] == s[p].order;
    KeysBelowAreOrdered(s, depth, p, 0);
    var own := if s[p].isEnd then [p] else [];
    forall x, y | x in own && y in KeysBelow(s, depth, p, s[p].order) ensures Precedes(s, x, y) {
      KeysBelowAreExtensions(s, depth, p, s[p].order, y);
    }
    OrderedInTwo(s, own, KeysBelow(s, depth, p, s[p].order));
  }

  lemma {:induction false} KeysBelowAreOrdered(s: Shape, depth: nat, p: string, m: nat)
    requires p in s && Linked(s) && Rooted(s) && Bounded(s, depth) && OnceEach(s) && m <= |s[p].order|
    ensures Ordered(s, KeysBelow(s, depth, p, s[p].order[m..]))
    decreases depth - |p|, |s[p].order| - m
  {
    var order := s[p].order;
    if m < |order| {
      assert order[m..][1..] == order[m + 1..] && order[m..][0] == order[m];
      var here, rest := Keys(s, depth, p + [order[m]]), KeysBelow(s, depth, p, order[m + 1..]);
      KeysAreOrdered(s, depth, p + [order[m]]);
      KeysBelowAreOrdered(s, depth, p, m + 1);
      forall x, y | x in here && y in rest ensures Precedes(s, x, y) {
        KeysAreExtensions(s, depth, p + [order[m]], x);
        KeysBelowAreExtensions(s, depth, p, order[m + 1..], y);
        StartsWithChild(p, y[|p|], y);
        var j :| 0 <= j < |order[m + 1..]| && order[m + 1..][j] == y[|p|];
        assert Parts(s, p, m, m + 1 + j, x, y);
      }
      OrderedInTwo(s, here, rest);
    }
  }

  /** Where `x` and `y` part, the branch of `x` was reached by an earlier insertion; or `x` is a proper prefix. */
  ghost predicate Earlier(lower: string -> string, run: Run, x: string, y: string) {
    x < y || exists q: string, a: char, b: char :: Branches(lower, run, q, a, b, x, y)
  }

  ghost predicate Branches(lower: string -> string, run: Run, q: string, a: char, b: char, x: string, y: string) {
    q + [a] <= x && q + [b] <= y && exists i: nat :: ReachesFirst(lower, run, i, q + [a], q + [b])
  }

  /** Insertion `i` reaches `p`, and none up to it reaches `r`. */
  ghost predicate ReachesFirst(lower: string -> string, run: Run, i: nat, p: string, r: string) {
    i < |run| && Reaches(run[i], lower, p) && forall j :: 0 <= j <= i ==> !Reaches(run[j], lower, r)
  }

  /**
   * The order of every search, limited or not: a word before its extensions, and of two branches the one that an
   * insertion reached first.
   */
  lemma SearchOrder(lower: string -> string, run: Run, depth: nat, prefix: string, i: nat, j: nat)
    requires Linked(After(lower, run)) && Bounded(After(lower, run), depth)
    requires i < j < |KeysFor(After(lower, run), depth, prefix)|
    ensures var keys := KeysFor(After(lower, run), depth, prefix); Earlier(lower, run, keys[i], keys[j])
  {
    var s := After(lower, run);
    StaysSound(lower, run);
    KeysAreOrdered(s, depth, prefix);
    var keys := KeysFor(s, depth, prefix);
    var x, y := keys[i], keys[j];
    assert Precedes(s, x, y);
    if !(x < y) {
      var q, m: nat, n: nat :| Parts(s, q, m, n, x, y);
      var a, b := s[q].order[m], s[q].order[n];
      ChildrenInOrder(lower, run, q);
      FirstReachIs(lower, run, q + [a]);
      FirstReachIs(lower, run, q + [b]);
      assert ReachesFirst(lower, run, FirstReach(lower, run, q + [a]), q + [a], q + [b]);
      assert Branches(lower, run, q, a, b, x, y);
    }
  }
}

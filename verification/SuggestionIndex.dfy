/**
 * The suggestion index: a trie whose words carry a category in their metadata.
 *
 * The index writes the category into the dictionary the caller passed and keeps a reference to
 * it, so what a word is filed under may change after it has been added.
 */
module SuggestionIndex {
  import opened Prelude
  import opened TrieShape
  import opened SearchTrie

  const CATEGORY := "category"

  /** The items of a metadata dictionary. */
  type Items = map<string, string>

  /** A search result: a word and what its metadata holds when it is read. */
  datatype Match = Match(word: string, items: Items)

  function Whole(e: Entry): Entry {
    e
  }

  predicate Names(items: Items, category: string) {
    CATEGORY in items && items[CATEGORY] == category
  }

  /** The words of the matches in a category, in order. */
  function WordsIn(matches: seq<Match>, category: string): seq<string> {
    if matches == [] then []
    else
      var front, last := WordsIn(matches[..|matches| - 1], category), matches[|matches| - 1];
      if Names(last.items, category) then front + [last.word] else front
  }

  lemma WordsInGrow(matches: seq<Match>, m: Match, category: string)
    ensures WordsIn(matches + [m], category) ==
      if Names(m.items, category) then WordsIn(matches, category) + [m.word] else WordsIn(matches, category)
  {
  }

  lemma {:induction false} WordsInAreSound(matches: seq<Match>, category: string, word: string)
    ensures word in WordsIn(matches, category) <==>
      exists m :: m in matches && Names(m.items, category) && m.word == word
  {
    if matches != [] {
      var front, last := matches[..|matches| - 1], matches[|matches| - 1];
      WordsInAreSound(front, category, word);
      SplitLast(matches);
      assert forall m :: m in matches <==> m in front || m == last;
    }
  }

  // ---- Adding --------------------------------------------------------------------------------------

  function Tracked(categories: map<string, set<string>>, category: string): set<string> {
    if category in categories then categories[category] else {}
  }

  /** The categories once `key` has been filed under `category`, if there is one. */
  function Filed(categories: map<string, set<string>>, category: string, key: string): map<string, set<string>> {
    if category == "" then categories else categories[category := Tracked(categories, category) + {key}]
  }

  function Labelled(items: Items, category: string): Items {
    if category == "" then items else items[CATEGORY := category]
  }

  /** One addition; `labels` is the dictionary it works on, the caller's own or a new one. */
  datatype Addition = Addition(suggestion: string, category: string, labels: Labels)

  /** The words and the categories of an index, and what the dictionaries hold. */
  datatype Stock = Stock(words: map<string, Entry>, categories: map<string, set<string>>, held: map<Labels, Items>) {
    /** A dictionary nobody has written to is empty. */
    ghost function Held(d: Labels): Items {
      if d in held then held[d] else map[]
    }

    /** The suggestion under `key` is in `category`, as a search that reads it now sees it. */
    ghost predicate Holds(key: string, category: string) {
      key in words && words[key].metadata != null && Names(Held(words[key].metadata), category)
    }
  }

  ghost function Added(s: Stock, lower: string -> string, a: Addition): Stock {
    var key, items := lower(a.suggestion), Labelled(s.Held(a.labels), a.category);
    var entry := EntryFor(s.words, key, a.suggestion, if items == map[] then null else a.labels);
    Stock(
      if a.suggestion == "" then s.words else s.words[key := entry],
      Filed(s.categories, a.category, key),
      s.held[a.labels := items])
  }

  /** An index after a run of additions, with dictionaries that held `start` before. */
  ghost function AfterAdditions(start: map<Labels, Items>, lower: string -> string, run: seq<Addition>): Stock {
    if run == [] then Stock(map[], map[], start)
    else Added(AfterAdditions(start, lower, run[..|run| - 1]), lower, run[|run| - 1])
  }

  // ---- Every category is tracked ---------------------------------------------------------------------

  /** Every category a dictionary names is tracked. */
  ghost predicate AllTracked(s: Stock) {
    forall d :: d in s.held && CATEGORY in s.held[d] ==> s.held[d][CATEGORY] in s.categories
  }

  lemma AddingKeepsTrack(s: Stock, lower: string -> string, a: Addition)
    requires AllTracked(s)
    ensures AllTracked(Added(s, lower, a))
  {
  }

  /**
   * After any run of additions that leave the "category" key to the index, a category that is not tracked holds no
   * suggestion: answering it with nothing misses none.
   */
  lemma {:induction false} RunKeepsTrack(start: map<Labels, Items>, lower: string -> string, run: seq<Addition>)
    requires forall d :: d in start ==> CATEGORY !in start[d]
    ensures var s := AfterAdditions(start, lower, run);
      && AllTracked(s)
      && forall category, key :: category !in s.categories ==> !s.Holds(key, category)
  {
    if run != [] {
      RunKeepsTrack(start, lower, run[..|run| - 1]);
      AddingKeepsTrack(AfterAdditions(start, lower, run[..|run| - 1]), lower, run[|run| - 1]);
    }
  }

  /**
   * The category key in a caller's own metadata is what escapes tracking: such a suggestion is in a category nobody
   * finds.
   */
  lemma SmuggledCategoryIsUntracked(lower: string -> string, word: string, category: string, d: Labels)
    requires word != ""
    ensures var s := AfterAdditions(map[d := map[CATEGORY := category]], lower, [Addition(word, "", d)]);
      s.Holds(lower(word), category) && category !in s.categories
  {
    var start: map<Labels, Items> := map[d := map[CATEGORY := category]];
    assert [Addition(word, "", d)][..0] == [];
    assert Names(Stock(map[], map[], start).Held(d), category);
  }

  // ---- Shared dictionaries -----------------------------------------------------------------------------

  /** The category a run has last written into a dictionary. */
  ghost function LastCategory(run: seq<Addition>, d: Labels): (category: Option<string>)
    ensures category.Some? ==> category.value != ""
  {
    if run == [] then None
    else
      var a := run[|run| - 1];
      if a.labels == d && a.category != "" then Some(a.category) else LastCategory(run[..|run| - 1], d)
  }

  /** A dictionary holds what it held before, and the category written last. */
  lemma {:induction false} HeldAfter(start: map<Labels, Items>, lower: string -> string, run: seq<Addition>, d: Labels)
    ensures var category := LastCategory(run, d);
      AfterAdditions(start, lower, run).Held(d) ==
      Labelled(if d in start then start[d] else map[], if category.Some? then category.value else "")
  {
    if run != [] {
      HeldAfter(start, lower, run[..|run| - 1], d);
    }
  }

  lemma {:induction false} LastCategoryInTwo(front: seq<Addition>, back: seq<Addition>, d: Labels)
    ensures LastCategory(front + back, d) ==
      if LastCategory(back, d).Some? then LastCategory(back, d) else LastCategory(front, d)
  {
    if back == [] {
      assert front + back == front;
    } else {
      LastCategoryInTwo(front, back[..|back| - 1], d);
      assert (front + back)[..|front + back| - 1] == front + back[..|back| - 1];
    }
  }

  lemma AddedRefers(s: Stock, lower: string -> string, a: Addition)
    requires a.suggestion != "" && a.category != ""
    ensures Refers(Added(s, lower, a), lower, a)
  {
    assert CATEGORY in Labelled(s.Held(a.labels), a.category);
  }

  lemma OthersStillRefer(s: Stock, lower: string -> string, a: Addition, b: Addition)
    requires Refers(s, lower, a) && lower(b.suggestion) != lower(a.suggestion)
    ensures Refers(Added(s, lower, b), lower, a)
  {
  }

  /** The word of an addition, with a reference to its dictionary, is what is stored. */
  ghost predicate Refers(s: Stock, lower: string -> string, a: Addition) {
    lower(a.suggestion) in s.words && s.words[lower(a.suggestion)] == Entry(a.suggestion, a.labels)
  }

  lemma AfterOneMore(start: map<Labels, Items>, lower: string -> string, run: seq<Addition>, a: Addition)
    ensures AfterAdditions(start, lower, run + [a]) == Added(AfterAdditions(start, lower, run), lower, a)
  {
    assert (run + [a])[..|run|] == run;
  }

  /** A suggestion that is not added again keeps its reference. */
  lemma {:induction false} ReferenceStays(start: map<Labels, Items>, lower: string -> string,
                                          front: seq<Addition>, a: Addition, back: seq<Addition>)
    requires a.suggestion != "" && a.category != ""
    requires forall i :: 0 <= i < |back| ==> lower(back[i].suggestion) != lower(a.suggestion)
    ensures Refers(AfterAdditions(start, lower, front + [a] + back), lower, a)
  {
    if back == [] {
      assert front + [a] + back == front + [a];
      AfterOneMore(start, lower, front, a);
      AddedRefers(AfterAdditions(start, lower, front), lower, a);
    } else {
      var rest, b := back[..|back| - 1], back[|back| - 1];
      assert front + [a] + back == front + [a] + rest + [b];
      ReferenceStays(start, lower, front, a, rest);
      AfterOneMore(start, lower, front + [a] + rest, b);
      OthersStillRefer(AfterAdditions(start, lower, front + [a] + rest), lower, a, b);
    }
  }

  /**
   * A suggestion added under a category, and not added again, is still found in it exactly when the last later
   * addition that filed the same dictionary, if any did, filed it under the same category.
   */
  lemma StaysInCategoryIff(start: map<Labels, Items>, lower: string -> string,
                           front: seq<Addition>, a: Addition, back: seq<Addition>)
    requires a.suggestion != "" && a.category != ""
    requires forall i :: 0 <= i < |back| ==> lower(back[i].suggestion) != lower(a.suggestion)
    ensures AfterAdditions(start, lower, front + [a] + back).Holds(lower(a.suggestion), a.category) <==>
      LastCategory(back, a.labels) in {None, Some(a.category)}
  {
    var run := front + [a] + back;
    ReferenceStays(start, lower, front, a, back);
    HeldAfter(start, lower, run, a.labels);
    assert LastCategory(run, a.labels) == if LastCategory(back, a.labels).Some? then LastCategory(back, a.labels)
                                          else Some(a.category) by {
      LastCategoryInTwo(front + [a], back, a.labels);
    }
  }

  /** What has been filed under a category stays filed there. */
  lemma {:induction false} FiledStays(start: map<Labels, Items>, lower: string -> string, run: seq<Addition>, i: nat)
    requires i < |run| && run[i].category != ""
    ensures lower(run[i].suggestion) in Tracked(AfterAdditions(start, lower, run).categories, run[i].category)
  {
    if i < |run| - 1 {
      FiledStays(start, lower, run[..|run| - 1], i);
    }
  }

  /** An addition files `key` under `category`. */
  predicate Files(a: Addition, lower: string -> string, category: string, key: string) {
    category != "" && a.category == category && lower(a.suggestion) == key
  }

  ghost predicate FiledBy(run: seq<Addition>, lower: string -> string, category: string, key: string) {
    exists i :: 0 <= i < |run| && Files(run[i], lower, category, key)
  }

  ghost predicate NamedBy(run: seq<Addition>, category: string) {
    category != "" && exists i :: 0 <= i < |run| && run[i].category == category
  }

  lemma FilesOneMore(s: Stock, lower: string -> string, a: Addition, category: string, key: string)
    ensures var after := Added(s, lower, a).categories;
      && (key in Tracked(after, category) <==> key in Tracked(s.categories, category) || Files(a, lower, category, key))
      && (category in after <==> category in s.categories || (category != "" && a.category == category))
  {
  }

  lemma FiledByOneMore(run: seq<Addition>, a: Addition, lower: string -> string, category: string, key: string)
    ensures FiledBy(run + [a], lower, category, key) <==> FiledBy(run, lower, category, key)
                                                           || Files(a, lower, category, key)
    ensures NamedBy(run + [a], category) <==> NamedBy(run, category) || (category != "" && a.category == category)
  {
    var longer := run + [a];
    assert longer[|run|] == a && forall i :: 0 <= i < |run| ==> longer[i] == run[i];
  }

  /** What is filed under a category, and which categories there are, is what additions have filed. */
  lemma {:induction false} FiledIff(start: map<Labels, Items>, lower: string -> string, run: seq<Addition>,
                                    category: string, key: string)
    ensures var categories := AfterAdditions(start, lower, run).categories;
      && (key in Tracked(categories, category) <==> FiledBy(run, lower, category, key))
      && (category in categories <==> NamedBy(run, category))
  {
    if run != [] {
      var front, last := run[..|run| - 1], run[|run| - 1];
      assert run == front + [last];
      FiledIff(start, lower, front, category, key);
      FilesOneMore(AfterAdditions(start, lower, front), lower, last, category, key);
      FiledByOneMore(front, last, lower, category, key);
    }
  }

  /** Two suggestions that share a dictionary share the later category, though the first stays filed in its own. */
  lemma SharedDictionaryMoves(lower: string -> string, d: Labels, x: string, mine: string, y: string, other: string)
    requires x != "" && mine != "" && other != "" && mine != other && lower(x) != lower(y)
    ensures var s := AfterAdditions(map[], lower, [Addition(x, mine, d), Addition(y, other, d)]);
      !s.Holds(lower(x), mine) && s.Holds(lower(x), other) && lower(x) in Tracked(s.categories, mine)
  {
    var a, b := Addition(x, mine, d), Addition(y, other, d);
    assert [] + [a] + [b] == [a, b];
    ReferenceStays(map[], lower, [], a, [b]);
    HeldAfter(map[], lower, [a, b], d);
    assert LastCategory([a, b], d) == Some(other);
    FiledStays(map[], lower, [a, b], 0);
  }

  // ---- The index ---------------------------------------------------------------------------------------

  /** The dictionaries some entries refer to. */
  ghost function Dictionaries(entries: seq<Entry>): set<Labels> {
    set e | e in entries && e.metadata != null :: e.metadata
  }

  /** What a search reads of an entry. */
  function Opened(e: Entry): Match
    reads e.metadata
  {
    Match(e.word, if e.metadata == null then map[] else e.metadata.items)
  }

  ghost function AllOpened(entries: seq<Entry>): seq<Match>
    reads Dictionaries(entries)
  {
    seq(|entries|, i requires 0 <= i < |entries| reads Dictionaries(entries) => Opened(entries[i]))
  }

  ghost function Alone(d: Labels, items: Items): map<Labels, Items> {
    map[d := items]
  }

  lemma AddedAlone(words: map<string, Entry>, categories: map<string, set<string>>, lower: string -> string,
                   a: Addition, items: Items)
    ensures var key, given := lower(a.suggestion), Labelled(items, a.category);
      Added(Stock(words, categories, Alone(a.labels, items)), lower, a) == Stock(
        if a.suggestion == "" then words
        else words[key := EntryFor(words, key, a.suggestion, if given == map[] then null else a.labels)],
        Filed(categories, a.category, key),
        Alone(a.labels, given))
  {
    var given := Labelled(items, a.category);
    assert Alone(a.labels, items)[a.labels := given] == Alone(a.labels, given);
  }

  class Index {
    const trie: Trie
    var categories: map<string, set<string>>

    ghost predicate Valid()
      reads trie, trie.owned
    {
      trie.Valid()
    }

    constructor (lower: string -> string)
      ensures Valid() && fresh(trie) && fresh(trie.owned)
      ensures trie.Words() == map[] && categories == map[]
    {
      trie := new Trie(lower);
      categories := map[];
    }

    /** Writes the category into the dictionary and files the key under it. */
    method File(category: string, key: string, meta: Labels)
      modifies this`categories, meta
      ensures categories == Filed(old(categories), category, key) && meta.items == Labelled(old(meta.items), category)
    {
      if category != "" {
        meta.items := meta.items[CATEGORY := category];
        if category !in categories {
          categories := categories[category := {}];
        }
        categories := categories[category := categories[category] + {key}];
      }
    }

    /** Files the suggestion and stores it with the dictionary, when that holds anything. */
    method AddWith(suggestion: string, category: string, meta: Labels)
      requires Valid()
      modifies this`categories, trie, trie.owned, meta
      ensures Valid() && fresh(trie.owned - old(trie.owned))
      ensures Stock(trie.Words(), categories, Alone(meta, meta.items)) ==
              Added(old(Stock(trie.Words(), categories, Alone(meta, meta.items))), trie.lower,
                    Addition(suggestion, category, meta))
    {
      AddedAlone(trie.Words(), categories, trie.lower, Addition(suggestion, category, meta), meta.items);
      File(category, trie.lower(suggestion), meta);
      trie.Insert(suggestion, meta);
    }

    static method NewLabels() returns (meta: Labels)
      ensures fresh(meta) && meta.items == map[]
    {
      meta := new Labels();
    }

    method AddWithNew(suggestion: string, category: string) returns (meta: Labels)
      requires Valid()
      modifies this`categories, trie, trie.owned
      ensures Valid() && fresh(trie.owned - old(trie.owned)) && fresh(meta)
      ensures Stock(trie.Words(), categories, Alone(meta, meta.items)) ==
              Added(Stock(old(trie.Words()), old(categories), Alone(meta, map[])), trie.lower,
                    Addition(suggestion, category, meta))
    {
      meta := NewLabels();
      AddWith(suggestion, category, meta);
    }

    /** Adds a suggestion under a category, or under none when the category is empty: `metadata or {}` is labelled. */
    method AddSuggestion(suggestion: string, category: string, metadata: Metadata) returns (ghost labels: Labels)
      requires Valid()
      modifies this`categories, trie, trie.owned, metadata
      ensures Valid() && fresh(trie.owned - old(trie.owned))
      ensures if old(Given(metadata)) != null then labels == metadata else fresh(labels)
      ensures metadata != null && metadata != labels ==> metadata.items == old(metadata.items)
      ensures var items := old(if metadata != null then metadata.items else map[]);
        Stock(trie.Words(), categories, Alone(labels, labels.items)) ==
        Added(Stock(old(trie.Words()), old(categories), Alone(labels, items)), trie.lower,
              Addition(suggestion, category, labels))
    {
      if Given(metadata) == null {
        labels := AddWithNew(suggestion, category);
      } else {
        AddWith(suggestion, category, metadata);
        labels := metadata;
      }
    }

    /** The suggestions that start with the prefix, as an unlimited search reports them. */
    ghost function Matching(prefix: string): seq<Entry>
      requires Valid()
      reads trie, trie.owned
    {
      ItemsAt(ShapeOf(trie.picture), Whole, KeysFor(ShapeOf(trie.picture), trie.depth, trie.lower(prefix)))
    }

    /** `[r["word"] for r in results if r["metadata"].get("category") == category]` */
    method Filter(results: seq<Entry>, category: string) returns (filtered: seq<string>)
      ensures filtered == WordsIn(AllOpened(results), category)
    {
      filtered := [];
      for i := 0 to |results|
        invariant filtered == WordsIn(AllOpened(results)[..i], category)
      {
        var m := Opened(results[i]);
        assert AllOpened(results)[..i + 1] == AllOpened(results)[..i] + [m];
        WordsInGrow(AllOpened(results)[..i], m, category);
        if Names(m.items, category) {
          filtered := filtered + [m.word];
        }
      }
      assert AllOpened(results)[..|results|] == AllOpened(results);
    }

    /** Looks at the first `2 * limit` matches and keeps those of a tracked category. */
    method SearchInCategory(prefix: string, category: string, limit: int) returns (found: seq<string>)
      requires Valid()
      ensures found == if category in categories then Answer(AllOpened(Matching(prefix)), category, limit) else []
    {
      if category !in categories {
        return [];
      }
      var results := trie.FindAllWithPrefix(prefix, Whole, limit * 2);
      var filtered := Filter(results, category);
      assert AllOpened(results) == Take(AllOpened(Matching(prefix)), 2 * limit);
      found := Take(filtered, limit);
    }
  }

  // ---- Sound always, complete up to twice the limit ----------------------------------------------

  /** What a search in a category answers about `matches`. */
  function Answer(matches: seq<Match>, category: string, limit: int): seq<string> {
    Take(WordsIn(Take(matches, 2 * limit), category), limit)
  }

  /** Every answer is a match of the category, whatever the limit. */
  lemma AnswersAreSound(matches: seq<Match>, category: string, limit: int, word: string)
    requires word in Answer(matches, category, limit)
    ensures exists m :: m in matches && Names(m.items, category) && m.word == word
  {
    var seen := Take(matches, 2 * limit);
    WordsInAreSound(seen, category, word);
    assert forall m :: m in seen ==> m in matches;
  }

  lemma {:induction false} WordsInPrefix(matches: seq<Match>, n: nat, category: string)
    requires n <= |matches|
    ensures WordsIn(matches[..n], category) <= WordsIn(matches, category)
    ensures |WordsIn(matches, category)| <= |WordsIn(matches[..n], category)| + (|matches| - n)
  {
    if n < |matches| {
      WordsInPrefix(matches[..|matches| - 1], n, category);
      assert matches[..|matches| - 1][..n] == matches[..n];
    } else {
      assert matches[..n] == matches;
    }
  }

  /**
   * The answer is the first `limit` of all matching suggestions of the category exactly when enough
   * of them lie among the first `2 * limit` matches; it always is when there are no more matches than that.
   */
  lemma AnswerIsCompleteIff(matches: seq<Match>, category: string, limit: nat)
    ensures Answer(matches, category, limit) <= Take(WordsIn(matches, category), limit)
    ensures Answer(matches, category, limit) == Take(WordsIn(matches, category), limit) <==>
      |WordsIn(Take(matches, 2 * limit), category)| >= limit
      || |WordsIn(Take(matches, 2 * limit), category)| == |WordsIn(matches, category)|
    ensures |matches| <= 2 * limit ==> Answer(matches, category, limit) == Take(WordsIn(matches, category), limit)
  {
    if 2 * limit < |matches| {
      WordsInPrefix(matches, 2 * limit, category);
    }
    var some, all := WordsIn(Take(matches, 2 * limit), category), WordsIn(matches, category);
    assert some <= all;
    assert some == all[..|some|];
  }

  /** Twice the limit is not always enough: a crowd of other suggestions hides one of the category. */
  lemma CrowdHidesASuggestion(other: Match, mine: Match, category: string)
    requires Names(mine.items, category) && !Names(other.items, category)
    ensures Answer([other, other, mine], category, 1) == []
    ensures Take(WordsIn([other, other, mine], category), 1) == [mine.word]
  {
    var all := [other, other, mine];
    assert Take(all, 2) == [other] + [other];
    WordsInGrow([], other, category);
    WordsInGrow([other], other, category);
    WordsInGrow([other, other], mine, category);
    assert [] + [other] == [other] && [other] + [other] == [other, other] && [other, other] + [mine] == all;
  }
}

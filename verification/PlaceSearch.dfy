/**
 * The map search and the scrape job around it: what the extraction counters record
 * of a page that may answer anything, and exactly when an empty result is silent.
 *
 * The page is an oracle: what each selector counts each time it is asked, which card
 * answers what, which call raises. Going back to the result list after a place may raise too; every such
 * exception is caught and moves on to the next card, so it needs no case of its own.
 */
module PlaceSearch {
  import opened Prelude

  datatype Place = Place(title: string, partial: bool)

  /** Reading the details panel: a record, an empty record, required fields missing, or any other exception. */
  datatype Details = Got(place: Place) | Nothing | Missing(fields: seq<string>) | Raised

  /** A result card: without a link, raising before its name is read, or named; the click on its link may raise. */
  datatype Card = NoLink | Broken | Named(name: string, clickable: bool, details: Details)

  /** One look at the results feed; `None` where the count raises. */
  datatype Round = Round(cardCount: Option<nat>, strayLinks: Option<nat>, cards: nat -> Card, scrolls: bool)

  /**
   * `creates`, `navigates`, `titled` and `disposes` say which of those calls return rather than raise.
   * The place links are counted twice, by the search and again by the extraction it calls.
   */
  datatype Page = Page(
    creates: bool,
    navigates: bool,
    loaded: bool,
    titled: bool,
    disposes: bool,
    feedCount: Option<nat>,
    rounds: nat -> Round,
    linkCount: Option<nat>,
    linksAgain: Option<nat>,
    links: nat -> Card,
    single: Details)

  /** `SelectorsStaleError`, or any other exception. */
  datatype Failure = Stale(attempted: nat, extracted: nat, missing: set<string>) | Other

  const CARD_SELECTOR := "div[role='feed'] > div > div[jsaction]"
  const LINK_SELECTOR := "a[href*='/maps/place/']"
  const FEED_SELECTOR := "div[role='feed']"
  const REQUIRED_PLACE_FIELDS: set<string> := {"title"}
  const CORE_PLACE_FIELDS: set<string> :=
    {"address", "phone", "website", "category", "review_rating", "review_count", "open_hours"}

  // ---- What a walk over cards must have recorded ------------------------------------------------

  datatype Tally = Tally(seen: set<string>, attempted: nat, misses: seq<string>, places: seq<Place>)

  const NO_TALLY := Tally({}, 0, [], [])

  function Opened(t: Tally, details: Details): Tally {
    match details
    case Got(place) => t.(attempted := t.attempted + 1, places := t.places + [place])
    case Missing(fields) => t.(attempted := t.attempted + 1, misses := t.misses + fields)
    case _ => t.(attempted := t.attempted + 1)
  }

  function Visited(t: Tally, card: Card): Tally {
    match card
    case Named(name, clickable, details) =>
      if name == "" || name in t.seen then t
      else
        var u := t.(seen := t.seen + {name});
        if clickable then Opened(u, details) else u
    case _ => t
  }

  /** The record of walking over `trace`, first card first. */
  function Harvest(trace: seq<Card>): Tally {
    if trace == [] then NO_TALLY else Visited(Harvest(trace[..|trace| - 1]), trace[|trace| - 1])
  }

  lemma HarvestGrows(trace: seq<Card>, card: Card)
    ensures Harvest(trace + [card]) == Visited(Harvest(trace), card)
  {
  }

  function Partials(places: seq<Place>): nat {
    if places == [] then 0
    else Partials(places[..|places| - 1]) + if places[|places| - 1].partial then 1 else 0
  }

  lemma PartialsGrow(places: seq<Place>, place: Place)
    ensures Partials(places + [place]) == Partials(places) + if place.partial then 1 else 0
  {
  }

  datatype Counters = Counters(attempted: nat, misses: seq<string>, extracted: nat, partial: nat)

  function CountersOf(t: Tally): Counters {
    Counters(t.attempted, t.misses, |t.places|, Partials(t.places))
  }

  /** Card `i` is the first of its (non-empty) name. */
  predicate FirstSight(trace: seq<Card>, i: nat)
    requires i < |trace|
  {
    && trace[i].Named? && trace[i].name != ""
    && forall j :: 0 <= j < i && trace[j].Named? ==> trace[j].name != trace[i].name
  }

  /** The walk opens card `i`: its name is new and its link can be clicked. */
  predicate Opens(trace: seq<Card>, i: nat)
    requires i < |trace|
  {
    FirstSight(trace, i) && trace[i].clickable
  }

  lemma {:induction false} SeenNames(trace: seq<Card>, name: string)
    ensures name in Harvest(trace).seen <==>
      name != "" && exists i :: 0 <= i < |trace| && trace[i].Named? && trace[i].name == name
  {
    if trace != [] {
      var front, card := trace[..|trace| - 1], trace[|trace| - 1];
      SeenNames(front, name);
      assert trace[|trace| - 1] == card;
      assert forall i :: 0 <= i < |front| ==> front[i] == trace[i];
    }
  }

  lemma LastCardSeen(trace: seq<Card>)
    requires trace != [] && trace[|trace| - 1].Named?
    ensures FirstSight(trace, |trace| - 1) <==>
      trace[|trace| - 1].name != "" && trace[|trace| - 1].name !in Harvest(trace[..|trace| - 1]).seen
  {
    var front := trace[..|trace| - 1];
    SeenNames(front, trace[|trace| - 1].name);
    assert forall i :: 0 <= i < |front| ==> front[i] == trace[i];
  }

  /** The indices of the cards that the walk opens. */
  function OpenedAt(trace: seq<Card>): set<nat> {
    set i: nat | i < |trace| && Opens(trace, i)
  }

  lemma OpenedFront(trace: seq<Card>)
    requires trace != []
    ensures var last := |trace| - 1; var front := OpenedAt(trace[..last]);
      && last !in front
      && OpenedAt(trace) == if Opens(trace, last) then front + {last} else front
  {
  }

  /** Every name is opened at most once, at its first sighting, and the attempts counted are exactly those cards. */
  lemma {:induction false} AttemptsAreFirstSightings(trace: seq<Card>)
    ensures Harvest(trace).attempted == |OpenedAt(trace)|
  {
    if trace != [] {
      AttemptsAreFirstSightings(trace[..|trace| - 1]);
      OpenedFront(trace);
      if trace[|trace| - 1].Named? {
        LastCardSeen(trace);
      }
    }
  }

  /** The places returned are the records of the cards opened. */
  lemma {:induction false} PlacesAreTheRecordsOpened(trace: seq<Card>, place: Place)
    ensures place in Harvest(trace).places <==> exists i :: i in OpenedAt(trace) && trace[i].details == Got(place)
  {
    if trace != [] {
      var front := trace[..|trace| - 1];
      PlacesAreTheRecordsOpened(front, place);
      OpenedFront(trace);
      if trace[|trace| - 1].Named? {
        LastCardSeen(trace);
      }
      assert forall i :: i in OpenedAt(front) ==> front[i] == trace[i];
    }
  }

  // ---- What a page shows ----------------------------------------------------------------------------

  function Cards(cards: nat -> Card, n: nat): seq<Card> {
    seq(n, i requires 0 <= i < n => cards(i))
  }

  function CountOf(count: Option<nat>): nat {
    if count.Some? then count.value else 0
  }

  /** Everything the first `k` looks at the feed show. */
  function Shown(page: Page, k: nat): seq<Card> {
    if k == 0 then [] else Shown(page, k - 1) + Cards(page.rounds(k - 1).cards, CountOf(page.rounds(k - 1).cardCount))
  }

  /** The most cards any of the first `k` looks counted. */
  function Widest(page: Page, k: nat): nat {
    if k == 0 then 0 else Max(Widest(page, k - 1), CountOf(page.rounds(k - 1).cardCount))
  }

  function MaxScrolls(maxResults: int): nat {
    Max(5, maxResults / 4)
  }

  /** The record of a walk that stops once `limit` places have been found. */
  function Limited(trace: seq<Card>, limit: int): Tally {
    if trace == [] then NO_TALLY
    else
      var t := Limited(trace[..|trace| - 1], limit);
      if |t.places| < limit then Visited(t, trace[|trace| - 1]) else t
  }

  lemma LimitedGrows(trace: seq<Card>, card: Card, limit: int)
    ensures Limited(trace + [card], limit) ==
      if |Limited(trace, limit).places| < limit then Visited(Limited(trace, limit), card) else Limited(trace, limit)
  {
    assert (trace + [card])[..|trace|] == trace;
  }

  /** Once the limit is reached nothing further is visited. */
  lemma {:induction false} LimitedStops(trace: seq<Card>, more: seq<Card>, limit: int)
    requires limit <= |Limited(trace, limit).places|
    ensures Limited(trace + more, limit) == Limited(trace, limit)
    decreases |more|
  {
    if more == [] {
      assert trace + more == trace;
    } else {
      var front, last := more[..|more| - 1], more[|more| - 1];
      LimitedStops(trace, front, limit);
      LimitedGrows(trace + front, last, limit);
      assert trace + more == (trace + front) + [last];
    }
  }

  lemma VisitedPlaces(t: Tally, card: Card)
    ensures t.places <= Visited(t, card).places && |Visited(t, card).places| <= |t.places| + 1
  {
  }

  /** Walking on loses no place. */
  lemma {:induction false} LimitedOn(trace: seq<Card>, more: seq<Card>, limit: int)
    ensures Limited(trace, limit).places <= Limited(trace + more, limit).places
    decreases |more|
  {
    if more == [] {
      assert trace + more == trace;
    } else {
      var front, last := more[..|more| - 1], more[|more| - 1];
      LimitedOn(trace, front, limit);
      LimitedGrows(trace + front, last, limit);
      VisitedPlaces(Limited(trace + front, limit), last);
      assert trace + more == (trace + front) + [last];
    }
  }

  /**
   * A limited walk is a walk over a prefix, all of it unless the limit is reached, and never finds more than the
   * limit.
   */
  lemma {:induction false} LimitedIsAPrefixWalk(trace: seq<Card>, limit: int) returns (n: nat)
    ensures n <= |trace| && Limited(trace, limit) == Harvest(trace[..n])
    ensures n < |trace| ==> limit <= |Limited(trace, limit).places|
    ensures |Limited(trace, limit).places| <= Max(0, limit)
  {
    if trace == [] {
      n := 0;
    } else {
      var front, last := trace[..|trace| - 1], trace[|trace| - 1];
      n := LimitedIsAPrefixWalk(front, limit);
      assert front[..n] == trace[..n];
      if |Limited(front, limit).places| < limit {
        VisitedPlaces(Limited(front, limit), last);
        assert trace[..|trace|] == trace;
        n := |trace|;
      }
    }
  }

  /** Stopping at the limit yields the first `limit` places of the whole walk. */
  lemma {:induction false} LimitedIsTake(trace: seq<Card>, limit: int)
    ensures Limited(trace, limit).places == Take(Harvest(trace).places, limit)
    ensures |Limited(trace, limit).places| < limit ==> Limited(trace, limit) == Harvest(trace)
  {
    if trace != [] {
      LimitedIsTake(trace[..|trace| - 1], limit);
      VisitedPlaces(Harvest(trace[..|trace| - 1]), trace[|trace| - 1]);
    }
  }

  lemma VisitNext(shown: seq<Card>, all: seq<Card>, i: nat, limit: int)
    requires i < |all| && |Limited(shown + all[..i], limit).places| < limit
    ensures Limited(shown + all[..i + 1], limit) == Visited(Limited(shown + all[..i], limit), all[i])
  {
    LimitedGrows(shown + all[..i], all[i], limit);
    assert shown + all[..i + 1] == (shown + all[..i]) + [all[i]];
  }

  lemma RoundDone(shown: seq<Card>, all: seq<Card>, i: nat, limit: int)
    requires i == |all| || (i < |all| && limit <= |Limited(shown + all[..i], limit).places|)
    ensures Limited(shown + all, limit) == Limited(shown + all[..i], limit)
  {
    if i < |all| {
      LimitedStops(shown + all[..i], all[i..], limit);
      assert shown + all == (shown + all[..i]) + all[i..];
    } else {
      assert all[..i] == all;
    }
  }

  // ---- What reading a page comes to --------------------------------------------------------------------

  /** What the first `k` looks have recorded under the limit. */
  function Reading(page: Page, maxResults: int, k: nat): Tally {
    Limited(Shown(page, k), maxResults)
  }

  /** The places found by the first so many looks. */
  function FoundBy(page: Page, maxResults: int): nat -> seq<Place> {
    (k: nat) => Reading(page, maxResults, k).places
  }

  /** How the walk over a feed ends, and after how many completed looks. */
  datatype FeedEnd = Finished(looks: nat) | LooksEmpty(looks: nat) | StaleCards(looks: nat) | Raises

  /** What look `k` decides, if it decides anything, when `found` are the places found before it. */
  function AtLook(look: Round, k: nat, found: seq<Place>): Option<FeedEnd> {
    if look.cardCount.None? then Some(Raises)
    else if look.cardCount.value == 0 && found == [] then
      if look.strayLinks.None? then Some(Raises)
      else if look.strayLinks.value > 0 then Some(StaleCards(k))
      else Some(LooksEmpty(k))
    else if !look.scrolls then Some(Finished(k + 1))
    else None
  }

  /** The end of the walk from look `k` on. */
  function EndOfFeed(page: Page, maxResults: int, found: nat -> seq<Place>, k: nat): FeedEnd
    decreases MaxScrolls(maxResults) - k
  {
    if MaxScrolls(maxResults) <= k || maxResults <= |found(k)| then Finished(k)
    else
      match AtLook(page.rounds(k), k, found(k))
      case Some(end) => end
      case None => EndOfFeed(page, maxResults, found, k + 1)
  }

  function FeedEndOf(page: Page, maxResults: int): FeedEnd {
    EndOfFeed(page, maxResults, FoundBy(page, maxResults), 0)
  }

  /** A page that has been read: the record, the candidates counted, and whether an empty list is labelled. */
  datatype Outcome = Outcome(tally: Tally, candidates: nat, unverified: bool)

  function FeedOutcome(page: Page, maxResults: int): Result<Outcome, Failure> {
    match FeedEndOf(page, maxResults)
    case Finished(n) => Ok(Outcome(Reading(page, maxResults, n), Widest(page, n), false))
    case LooksEmpty(n) => Ok(Outcome(Reading(page, maxResults, n), Widest(page, n), true))
    case StaleCards(_) => Err(Stale(0, 0, {CARD_SELECTOR}))
    case Raises => Err(Other)
  }

  function LinksOutcome(page: Page, maxResults: int): Result<Outcome, Failure> {
    if page.linksAgain.None? then Err(Other)
    else
      var n := Max(0, Min(page.linksAgain.value, maxResults));
      Ok(Outcome(Harvest(Cards(page.links, n)), n, false))
  }

  /** The feed if there is one, else the place links if there are any, else a single place. */
  function PageOutcome(page: Page, maxResults: int): Result<Outcome, Failure> {
    if page.feedCount.None? then Err(Other)
    else if page.feedCount.value > 0 then FeedOutcome(page, maxResults)
    else if page.linkCount.None? then Err(Other)
    else if page.linkCount.value > 0 then LinksOutcome(page, maxResults)
    else if page.single.Raised? then Err(Other)
    else Ok(Outcome(Opened(NO_TALLY, page.single), 1, false))
  }

  /** Nothing on the way to the page and back raises. */
  predicate Reachable(page: Page) {
    page.creates && page.navigates && (page.loaded || page.titled) && page.disposes
  }

  /** The record of a page is believed when its emptiness is no parser failure and some place has a core field. */
  predicate Believable(loaded: bool, o: Outcome) {
    if o.tally.places == [] then loaded && o.candidates == 0 else Partials(o.tally.places) != |o.tally.places|
  }

  /** What a stale parser most likely missed: the containers, the fields the places lacked, or every core field. */
  function Suspects(loaded: bool, t: Tally): set<string> {
    if t.places != [] then CORE_PLACE_FIELDS
    else if !loaded then {FEED_SELECTOR, LINK_SELECTOR}
    else if t.misses == [] then REQUIRED_PLACE_FIELDS
    else set f | f in t.misses
  }

  /** What a search answers. */
  function Answer(page: Page, maxResults: int): Result<seq<Place>, Failure> {
    if !Reachable(page) then Err(Other)
    else
      match PageOutcome(page, maxResults)
      case Err(e) => Err(e)
      case Ok(o) =>
        if Believable(page.loaded, o) then Ok(o.tally.places)
        else Err(Stale(o.tally.attempted, |o.tally.places|, Suspects(page.loaded, o.tally)))
  }

  /** The walk over a feed look by look: what has been shown, recorded and counted, and how it ends from there. */
  datatype Course = Course(shown: nat -> seq<Card>, reading: nat -> Tally, widest: nat -> nat, ends: nat -> FeedEnd)

  /** How look `k` takes the course one further. */
  ghost predicate LookTaken(page: Page, maxResults: int, c: Course, k: nat) {
    var look := page.rounds(k);
    && c.reading(k) == Limited(c.shown(k), maxResults)
    && c.reading(k + 1) == Limited(c.shown(k) + Cards(look.cards, CountOf(look.cardCount)), maxResults)
    && c.widest(k + 1) == Max(c.widest(k), CountOf(look.cardCount))
    && c.ends(k) ==
         if MaxScrolls(maxResults) <= k || maxResults <= |c.reading(k).places| then Finished(k)
         else
           match AtLook(look, k, c.reading(k).places)
           case Some(end) => end
           case None => c.ends(k + 1)
  }

  function OutcomeAt(c: Course, end: FeedEnd): Result<Outcome, Failure> {
    match end
    case Finished(n) => Ok(Outcome(c.reading(n), c.widest(n), false))
    case LooksEmpty(n) => Ok(Outcome(c.reading(n), c.widest(n), true))
    case StaleCards(_) => Err(Stale(0, 0, {CARD_SELECTOR}))
    case Raises => Err(Other)
  }

  lemma TheCourse(page: Page, maxResults: int) returns (c: Course)
    ensures c.reading(0) == NO_TALLY && c.widest(0) == 0
    ensures FeedOutcome(page, maxResults) == OutcomeAt(c, c.ends(0))
    ensures forall k: nat {:trigger LookTaken(page, maxResults, c, k)} :: LookTaken(page, maxResults, c, k)
  {
    var found := FoundBy(page, maxResults);
    c := Course((k: nat) => Shown(page, k), (k: nat) => Reading(page, maxResults, k), (k: nat) => Widest(page, k),
                (k: nat) => EndOfFeed(page, maxResults, found, k));
    forall k: nat ensures LookTaken(page, maxResults, c, k) {
      LookIsTaken(page, maxResults, k);
    }
  }

  lemma LookIsTaken(page: Page, maxResults: int, k: nat)
    ensures var n, found := CountOf(page.rounds(k).cardCount), FoundBy(page, maxResults);
      && Reading(page, maxResults, k + 1) == Limited(Shown(page, k) + Cards(page.rounds(k).cards, n), maxResults)
      && Widest(page, k + 1) == Max(Widest(page, k), n)
      && found(k) == Reading(page, maxResults, k).places
  {
  }

  // ---- The scraper ------------------------------------------------------------------------------------

  class Scraper {
    var candidates: nat
    var attempted: nat
    var extracted: nat
    var partial: nat
    var unverifiedEmpty: bool
    var requiredMisses: seq<string>
    var open: bool

    constructor ()
      ensures Counts(NO_TALLY) && candidates == 0 && !unverifiedEmpty && !open
    {
      open := false;
      candidates, attempted, extracted, partial := 0, 0, 0, 0;
      unverifiedEmpty, requiredMisses := false, [];
    }

    /** The counters say exactly what the walk recorded in `t` did. */
    ghost predicate Counts(t: Tally)
      reads this
    {
      Counters(attempted, requiredMisses, extracted, partial) == CountersOf(t)
    }

    /** A walk recorded in `t` is under way: its places, the names it has seen, the counters. */
    ghost predicate Keeps(t: Tally, results: seq<Place>, seen: set<string>)
      reads this
    {
      Counts(t) && results == t.places && seen == t.seen
    }

    /** The page came to `o`, and so say the result, the counters and the label. */
    ghost predicate Reports(o: Result<Outcome, Failure>, r: Result<seq<Place>, Failure>)
      reads this
    {
      match o
      case Err(e) => r == Err(e)
      case Ok(x) =>
        r == Ok(x.tally.places) && Counts(x.tally) && candidates == x.candidates && unverifiedEmpty == x.unverified
    }

    method Reset()
      modifies this`candidates, this`attempted, this`extracted, this`partial
      modifies this`unverifiedEmpty, this`requiredMisses
      ensures Counts(NO_TALLY) && candidates == 0 && !unverifiedEmpty
    {
      candidates, attempted, extracted, partial := 0, 0, 0, 0;
      unverifiedEmpty, requiredMisses := false, [];
    }

    /** Opens one place and keeps its record, if there is one; `raised` when the panel raised something unforeseen. */
    method OpenPlace(details: Details, results: seq<Place>, ghost t: Tally) returns (found: seq<Place>, raised: bool)
      requires Counts(t) && results == t.places
      modifies this`attempted, this`extracted, this`partial, this`requiredMisses
      ensures Counts(Opened(t, details)) && found == Opened(t, details).places
      ensures raised <==> details.Raised?
    {
      found, raised := results, false;
      attempted := attempted + 1;
      match details {
        case Got(place) =>
          PartialsGrow(results, place);
          extracted := extracted + 1;
          partial := partial + if place.partial then 1 else 0;
          found := found + [place];
        case Missing(fields) => requiredMisses := requiredMisses + fields;
        case Nothing =>
        case Raised => raised := true;
      }
    }

    /** The body shared by the loops over cards and over links; exceptions move on to the next card. */
    method VisitCard(card: Card, results: seq<Place>, seen: set<string>, ghost t: Tally)
      returns (found: seq<Place>, names: set<string>)
      requires Keeps(t, results, seen)
      modifies this`attempted, this`extracted, this`partial, this`requiredMisses
      ensures Keeps(Visited(t, card), found, names)
    {
      found, names := results, seen;
      if card.Named? && card.name != "" && card.name !in names {
        names := names + {card.name};
        if card.clickable {
          var raised: bool;
          found, raised := OpenPlace(card.details, results, t.(seen := names));
        }
      }
    }

    /** Walks over the cards of one look at the feed until the limit is reached. */
    method VisitRound(cards: nat -> Card, cardCount: nat, maxResults: int, results: seq<Place>, seen: set<string>,
                      ghost shown: seq<Card>, ghost before: Tally, ghost after: Tally)
      returns (found: seq<Place>, names: set<string>)
      requires before == Limited(shown, maxResults) && Keeps(before, results, seen)
      requires after == Limited(shown + Cards(cards, cardCount), maxResults)
      modifies this`attempted, this`extracted, this`partial, this`requiredMisses
      ensures Keeps(after, found, names)
    {
      found, names := results, seen;
      ghost var all, t := Cards(cards, cardCount), before;
      var i := 0;
      assert shown + all[..0] == shown;
      while i < cardCount && |found| < maxResults
        invariant 0 <= i <= cardCount && t == Limited(shown + all[..i], maxResults)
        invariant Keeps(t, found, names)
      {
        VisitNext(shown, all, i, maxResults);
        found, names := VisitCard(cards(i), found, names, t);
        t := Visited(t, cards(i));
        i := i + 1;
      }
      RoundDone(shown, all, i, maxResults);
    }

    /**
     * A look that raises, or that counts no cards while nothing has been found: stray place links tell a
     * stale selector from an empty area.
     */
    method JudgeEmptyLook(look: Round, ghost k: nat) returns (r: Result<seq<Place>, Failure>)
      requires look.cardCount.None? || look.cardCount.value == 0
      modifies this`unverifiedEmpty
      ensures var end := AtLook(look, k, []).value;
        && unverifiedEmpty == (old(unverifiedEmpty) || end.LooksEmpty?)
        && r == if end.LooksEmpty? then Ok([]) else Err(if end.StaleCards? then Stale(0, 0, {CARD_SELECTOR}) else Other)
    {
      if look.cardCount.None? || look.strayLinks.None? { return Err(Other); }
      if look.strayLinks.value > 0 { return Err(Stale(0, 0, {CARD_SELECTOR})); }
      unverifiedEmpty := true;
      return Ok([]);
    }

    /** Reads the results feed, scrolling for more. */
    method ExtractSearchResults(page: Page, maxResults: int) returns (r: Result<seq<Place>, Failure>)
      requires Counts(NO_TALLY) && candidates == 0 && !unverifiedEmpty
      modifies this`candidates, this`attempted, this`extracted, this`partial
      modifies this`unverifiedEmpty, this`requiredMisses
      ensures Reports(FeedOutcome(page, maxResults), r)
    {
      ghost var c := TheCourse(page, maxResults);
      var results: seq<Place>, seen: set<string> := [], {};
      var scrollCount := 0;
      var more := true;
      while more && |results| < maxResults && scrollCount < MaxScrolls(maxResults)
        invariant 0 <= scrollCount <= MaxScrolls(maxResults) && !unverifiedEmpty
        invariant Keeps(c.reading(scrollCount), results, seen) && candidates == c.widest(scrollCount)
        invariant c.ends(0) == if more then c.ends(scrollCount) else Finished(scrollCount)
        decreases MaxScrolls(maxResults) - scrollCount
      {
        var look := page.rounds(scrollCount);
        assert LookTaken(page, maxResults, c, scrollCount);
        if look.cardCount.None? || (look.cardCount.value == 0 && results == []) {
          r := JudgeEmptyLook(look, scrollCount);
          return;
        }
        candidates := Max(candidates, look.cardCount.value);
        results, seen := VisitRound(look.cards, look.cardCount.value, maxResults, results, seen,
                                    c.shown(scrollCount), c.reading(scrollCount), c.reading(scrollCount + 1));
        scrollCount := scrollCount + 1;
        more := look.scrolls;
      }
      assert LookTaken(page, maxResults, c, scrollCount);
      r := Ok(results);
    }

    /** Reads the place links of a page without a feed, as many as there are by now. */
    method ExtractFromPlaceLinks(page: Page, maxResults: int) returns (r: Result<seq<Place>, Failure>)
      requires Counts(NO_TALLY) && candidates == 0 && !unverifiedEmpty
      modifies this`candidates, this`attempted, this`extracted, this`partial, this`requiredMisses
      ensures Reports(LinksOutcome(page, maxResults), r)
    {
      if page.linksAgain.None? { return Err(Other); }
      var n := Min(page.linksAgain.value, maxResults);
      candidates := Max(candidates, n);
      var results: seq<Place>, seen: set<string> := [], {};
      ghost var all := Cards(page.links, Max(0, n));
      var i := 0;
      while i < n
        invariant 0 <= i <= Max(0, n) && candidates == Max(0, n)
        invariant Keeps(Harvest(all[..i]), results, seen)
      {
        results, seen := VisitCard(page.links(i), results, seen, Harvest(all[..i]));
        HarvestGrows(all[..i], page.links(i));
        assert all[..i + 1] == all[..i] + [page.links(i)];
        i := i + 1;
      }
      assert all[..i] == all;
      r := Ok(results);
    }

    /** An empty or all-partial outcome that is a parser failure, not a real zero. */
    method AssertSelectorsFresh(resultsLoaded: bool, ghost o: Outcome) returns (r: Result<(), Failure>)
      requires Counts(o.tally) && candidates == o.candidates
      ensures r == if Believable(resultsLoaded, o) then Ok(())
                   else Err(Stale(attempted, extracted, Suspects(resultsLoaded, o.tally)))
      ensures r.Err? <==> if extracted == 0 then !resultsLoaded || candidates > 0 else partial == extracted
      ensures r.Err? ==> r.error.missing != {}
      ensures
        var core := {"address", "phone", "website", "category", "review_rating", "review_count", "open_hours"};
        r.Err? && extracted > 0 ==> r.error.missing == core
      ensures r.Err? && extracted == 0 && !resultsLoaded ==>
        r.error.missing == {"div[role='feed']", "a[href*='/maps/place/']"}
      ensures r.Err? && extracted == 0 && resultsLoaded ==>
        r.error.missing == if requiredMisses == [] then {"title"} else set f | f in requiredMisses
    {
      if !resultsLoaded && extracted == 0 {
        assert FEED_SELECTOR in {FEED_SELECTOR, LINK_SELECTOR};
        return Err(Stale(attempted, 0, {FEED_SELECTOR, LINK_SELECTOR}));
      }
      if candidates > 0 && extracted == 0 {
        var missing := set f | f in requiredMisses;
        assert requiredMisses != [] ==> requiredMisses[0] in missing;
        if missing == {} {
          assert "title" in REQUIRED_PLACE_FIELDS;
          missing := REQUIRED_PLACE_FIELDS;
        }
        return Err(Stale(attempted, extracted, missing));
      }
      if extracted > 0 && partial == extracted {
        assert "address" in CORE_PLACE_FIELDS;
        return Err(Stale(attempted, extracted, CORE_PLACE_FIELDS));
      }
      r := Ok(());
    }

    /** The page of a single place. */
    method ExtractSinglePlace(details: Details) returns (r: Result<seq<Place>, Failure>)
      requires Counts(NO_TALLY) && candidates == 0
      modifies this`candidates, this`attempted, this`extracted, this`partial, this`requiredMisses
      ensures r == if details.Raised? then Err(Other) else Ok(Opened(NO_TALLY, details).places)
      ensures candidates == 1 && Counts(Opened(NO_TALLY, details))
    {
      candidates := candidates + 1;
      var found, raised := OpenPlace(details, [], NO_TALLY);
      r := if raised then Err(Other) else Ok(found);
    }

    /** Reads whichever of the three layouts the page has. */
    method ReadPage(page: Page, maxResults: int) returns (r: Result<seq<Place>, Failure>)
      requires Counts(NO_TALLY) && candidates == 0 && !unverifiedEmpty
      modifies this`candidates, this`attempted, this`extracted, this`partial
      modifies this`unverifiedEmpty, this`requiredMisses
      ensures Reports(PageOutcome(page, maxResults), r)
    {
      if page.feedCount.None? { return Err(Other); }
      if page.feedCount.value > 0 {
        r := ExtractSearchResults(page, maxResults);
      } else {
        if page.linkCount.None? { return Err(Other); }
        if page.linkCount.value > 0 {
          r := ExtractFromPlaceLinks(page, maxResults);
        } else {
          r := ExtractSinglePlace(page.single);
        }
      }
    }

    /** Searches and refuses every outcome that a stale parser could have caused. */
    method Search(page: Page, maxResults: int) returns (r: Result<seq<Place>, Failure>)
      modifies this
      ensures r == Answer(page, maxResults)
      ensures r.Ok? ==> extracted == |r.value| && partial == Partials(r.value)
      ensures r.Ok? && 1 <= maxResults ==> |r.value| <= maxResults
      ensures r.Ok? && r.value != [] ==> exists place :: place in r.value && !place.partial
      ensures r.Ok? ==> (unverifiedEmpty <==> r.value == [] && !Silent(page, maxResults))
      ensures r.Ok? ==> Explained(page, maxResults, r.value, unverifiedEmpty)
    {
      if !page.creates { return Err(Other); }
      open := true;
      Reset();
      if !page.navigates || (!page.loaded && !page.titled) { return Err(Other); }
      r := ReadPage(page, maxResults);
      if r.Ok? {
        var verdict := AssertSelectorsFresh(page.loaded, PageOutcome(page, maxResults).value);
        if verdict.Err? {
          r := Err(verdict.error);
        } else {
          SomePlaceIsWhole(r.value);
          LabelledIff(page, maxResults);
          AnswerIsExplained(page, maxResults);
          if 1 <= maxResults {
            WithinTheLimit(page, maxResults);
          }
        }
      }
      if !page.disposes {
        r := Err(Other);
      }
    }

    method Close()
      modifies this`open
      ensures !open
    {
      open := false;
    }
  }

  // ---- When a search answers, and when an empty answer is silent -----------------------------------

  /** The search counted place links, and the extraction found none left. */
  predicate LinksVanish(page: Page) {
    && page.feedCount == Some(0) && page.linksAgain == Some(0)
    && page.linkCount.Some? && page.linkCount.value > 0
  }

  /** An empty answer carries no label: none was asked for, or the links vanished between the two counts. */
  predicate Silent(page: Page, maxResults: int) {
    maxResults <= 0 || LinksVanish(page)
  }

  /** The first look at the feed shows neither cards nor stray place links. */
  predicate BlankFeed(page: Page) {
    && page.feedCount.Some? && page.feedCount.value > 0
    && page.rounds(0).cardCount == Some(0) && page.rounds(0).strayLinks == Some(0)
  }

  /** Every one of the first `k` looks shows cards and scrolls on, and not one place has come of them. */
  ghost predicate FruitlessUntil(page: Page, maxResults: int, found: nat -> seq<Place>, k: nat) {
    && k < MaxScrolls(maxResults) && 1 <= maxResults && found(k) == []
    && forall i :: 0 <= i < k ==> CountOf(page.rounds(i).cardCount) > 0 && page.rounds(i).scrolls
  }

  lemma {:induction false} SomePlaceIsWhole(places: seq<Place>)
    ensures Partials(places) <= |places|
    ensures Partials(places) < |places| <==> exists place :: place in places && !place.partial
  {
    if places != [] {
      var front, last := places[..|places| - 1], places[|places| - 1];
      SomePlaceIsWhole(front);
      assert places == front + [last];
      assert forall place :: place in places <==> place in front || place == last;
    }
  }

  lemma {:induction false} WidestSoFar(page: Page, k: nat, i: nat)
    requires i < k
    ensures CountOf(page.rounds(i).cardCount) <= Widest(page, k)
  {
    if i < k - 1 {
      WidestSoFar(page, k - 1, i);
    }
  }

  /** The candidates of a feed are the most cards any look has counted. */
  lemma {:induction false} WidestIsTheMost(page: Page, k: nat)
    ensures Widest(page, k) == 0 || exists i :: 0 <= i < k && page.rounds(i).cardCount == Some(Widest(page, k))
    ensures forall i :: 0 <= i < k && page.rounds(i).cardCount.Some? ==>
      page.rounds(i).cardCount.value <= Widest(page, k)
  {
    if k > 0 {
      WidestIsTheMost(page, k - 1);
    }
  }

  lemma ReadingGrows(page: Page, maxResults: int, k: nat)
    ensures Reading(page, maxResults, k).places <= Reading(page, maxResults, k + 1).places
  {
    LimitedOn(Shown(page, k), Cards(page.rounds(k).cards, CountOf(page.rounds(k).cardCount)), maxResults);
  }

  lemma {:induction false} NoMorePlacesThanCards(trace: seq<Card>)
    ensures |Harvest(trace).places| <= |trace|
  {
    if trace != [] {
      NoMorePlacesThanCards(trace[..|trace| - 1]);
      VisitedPlaces(Harvest(trace[..|trace| - 1]), trace[|trace| - 1]);
    }
  }

  lemma WithinTheLimit(page: Page, maxResults: int)
    requires PageOutcome(page, maxResults).Ok? && 1 <= maxResults
    ensures |PageOutcome(page, maxResults).value.tally.places| <= maxResults
  {
    if page.feedCount.value > 0 {
      var _ := LimitedIsAPrefixWalk(Shown(page, FeedEndOf(page, maxResults).looks), maxResults);
    } else if page.linkCount.value > 0 {
      NoMorePlacesThanCards(Cards(page.links, Max(0, Min(page.linksAgain.value, maxResults))));
    }
  }

  // ---- How a feed that yields nothing ends ------------------------------------------------------------

  /** Looking on loses no place. */
  ghost predicate Growing(found: nat -> seq<Place>) {
    forall i, j :: 0 <= i <= j ==> found(i) <= found(j)
  }

  lemma FoundGrows(page: Page, maxResults: int)
    ensures Growing(FoundBy(page, maxResults))
    ensures FoundBy(page, maxResults)(0) == []
  {
    forall i: nat, j: nat | i <= j ensures FoundBy(page, maxResults)(i) <= FoundBy(page, maxResults)(j) {
      FoundOn(page, maxResults, i, j);
    }
  }

  lemma {:induction false} FoundOn(page: Page, maxResults: int, i: nat, j: nat)
    requires i <= j
    ensures Reading(page, maxResults, i).places <= Reading(page, maxResults, j).places
    decreases j - i
  {
    if i < j {
      FoundOn(page, maxResults, i, j - 1);
      ReadingGrows(page, maxResults, j - 1);
    }
  }

  lemma {:induction false} FruitlessLooksPass(page: Page, maxResults: int, found: nat -> seq<Place>, j: nat, k: nat)
    requires FruitlessUntil(page, maxResults, found, k) && j <= k && Growing(found)
    ensures EndOfFeed(page, maxResults, found, j) == EndOfFeed(page, maxResults, found, k)
    decreases k - j
  {
    if j < k {
      assert found(j) <= found(k);
      FruitlessLooksPass(page, maxResults, found, j + 1, k);
    }
  }

  /**
   * The walk ended at look `k` because it counted no cards: nothing had been found, and every look since `j`
   * passed.
   */
  ghost predicate EndsEmptyHanded(page: Page, maxResults: int, found: nat -> seq<Place>, end: FeedEnd, j: nat)
    requires end.LooksEmpty? || end.StaleCards?
  {
    var look := page.rounds(end.looks);
    && j <= end.looks < MaxScrolls(maxResults) && 1 <= maxResults && found(end.looks) == []
    && look.cardCount == Some(0) && look.strayLinks.Some?
    && (end.StaleCards? <==> look.strayLinks.value > 0)
    && forall i :: j <= i < end.looks ==> CountOf(page.rounds(i).cardCount) > 0 && page.rounds(i).scrolls
  }

  lemma {:induction false} EmptyLookReached(page: Page, maxResults: int, found: nat -> seq<Place>, j: nat)
    requires var end := EndOfFeed(page, maxResults, found, j); end.LooksEmpty? || end.StaleCards?
    requires Growing(found)
    ensures EndsEmptyHanded(page, maxResults, found, EndOfFeed(page, maxResults, found, j), j)
    decreases MaxScrolls(maxResults) - j
  {
    if AtLook(page.rounds(j), j, found(j)).None? {
      EmptyLookReached(page, maxResults, found, j + 1);
      assert found(j) <= found(EndOfFeed(page, maxResults, found, j).looks);
    }
  }

  /**
   * What separates an empty area from a stale card selector: the walk ends labelled at a look that counts
   * neither cards nor stray links, and is refused at one that counts stray links only.
   */
  lemma EmptyLookIff(page: Page, maxResults: int, k: nat)
    ensures var look, end := page.rounds(k), FeedEndOf(page, maxResults);
      var fruitless := FruitlessUntil(page, maxResults, FoundBy(page, maxResults), k) && look.cardCount == Some(0);
      && (end == LooksEmpty(k) <==> fruitless && look.strayLinks == Some(0))
      && (end == StaleCards(k) <==> fruitless && look.strayLinks.Some? && look.strayLinks.value > 0)
  {
    var found := FoundBy(page, maxResults);
    FoundGrows(page, maxResults);
    if FruitlessUntil(page, maxResults, found, k) {
      FruitlessLooksPass(page, maxResults, found, 0, k);
    }
    var end := FeedEndOf(page, maxResults);
    if end == LooksEmpty(k) || end == StaleCards(k) {
      EmptyLookReached(page, maxResults, found, 0);
    }
  }

  lemma {:induction false} EndsNoEarlier(page: Page, maxResults: int, found: nat -> seq<Place>, j: nat)
    ensures var end := EndOfFeed(page, maxResults, found, j); end.Finished? ==> j <= end.looks
    decreases MaxScrolls(maxResults) - j
  {
    if j < MaxScrolls(maxResults) && AtLook(page.rounds(j), j, found(j)).None? {
      EndsNoEarlier(page, maxResults, found, j + 1);
    }
  }

  /** A feed read to its end has counted cards, unless nothing was asked for. */
  lemma FinishedMeansCards(page: Page, maxResults: int)
    requires FeedEndOf(page, maxResults).Finished? && 1 <= maxResults
    ensures Widest(page, FeedEndOf(page, maxResults).looks) > 0
  {
    FoundGrows(page, maxResults);
    EndsNoEarlier(page, maxResults, FoundBy(page, maxResults), 1);
    WidestSoFar(page, FeedEndOf(page, maxResults).looks, 0);
  }

  /** A feed gives an empty list without candidates exactly when its first look is blank. */
  lemma BlankFeedIff(page: Page, maxResults: int)
    requires page.feedCount.Some? && page.feedCount.value > 0 && 1 <= maxResults
    ensures var o := FeedOutcome(page, maxResults);
      && (o.Ok? && o.value.tally.places == [] && o.value.candidates == 0 <==> BlankFeed(page))
      && (o.Ok? && o.value.unverified ==> o.value.tally.places == [])
      && (o.Ok? && !o.value.unverified ==> o.value.candidates > 0)
  {
    var end, found := FeedEndOf(page, maxResults), FoundBy(page, maxResults);
    FoundGrows(page, maxResults);
    EmptyLookIff(page, maxResults, 0);
    if end.Finished? {
      FinishedMeansCards(page, maxResults);
    } else if end.LooksEmpty? {
      EmptyLookReached(page, maxResults, found, 0);
      assert Reading(page, maxResults, end.looks).places == found(end.looks);
      if end.looks > 0 {
        WidestSoFar(page, end.looks, 0);
      }
    }
  }

  // ---- How every feed ends, look by look ----------------------------------------------------------------

  /** The places that a walk over everything the first so many looks show would find. */
  function SeenBy(page: Page): nat -> seq<Place> {
    (k: nat) => Harvest(Shown(page, k)).places
  }

  /** Look `i` can be counted, and shows cards unless places have been seen before it. */
  predicate Passed(page: Page, seen: nat -> seq<Place>, i: nat) {
    page.rounds(i).cardCount.Some? && (page.rounds(i).cardCount.value > 0 || seen(i) != [])
  }

  /** Look `i` is one of the first five, or of the first quarter of the maximum, and places are still wanting. */
  predicate Wanted(maxResults: int, seen: nat -> seq<Place>, i: nat) {
    (i < 5 || i < maxResults / 4) && |seen(i)| < maxResults
  }

  /** Look `n` is taken: it is wanted, and all looks before it passed and scrolled on. */
  ghost predicate Taken(page: Page, maxResults: int, seen: nat -> seq<Place>, n: nat) {
    && (forall i {:trigger Wanted(maxResults, seen, i)} :: 0 <= i <= n ==> Wanted(maxResults, seen, i))
    && (forall i {:trigger Passed(page, seen, i)} :: 0 <= i < n ==> Passed(page, seen, i) && page.rounds(i).scrolls)
  }

  /** Exactly `n` looks are taken, all of them passed: one more is not wanted, or the last refused to scroll. */
  ghost predicate Complete(page: Page, maxResults: int, seen: nat -> seq<Place>, n: nat) {
    && (n > 0 ==> Taken(page, maxResults, seen, n - 1) && Passed(page, seen, n - 1))
    && (!Wanted(maxResults, seen, n) || (n > 0 && !page.rounds(n - 1).scrolls))
  }

  /** How a feed shows, at look `n`, that reading it ends this way. */
  ghost predicate EndsAt(page: Page, maxResults: int, seen: nat -> seq<Place>, end: FeedEnd, n: nat) {
    match end
    case Finished(looks) => looks == n && Complete(page, maxResults, seen, n)
    case LooksEmpty(looks) => looks == n && Taken(page, maxResults, seen, n) && Blank(page, seen, n, 0)
    case StaleCards(looks) =>
      looks == n && Taken(page, maxResults, seen, n) && exists stray :: stray > 0 && Blank(page, seen, n, stray)
    case Raises => Taken(page, maxResults, seen, n) && Uncounted(page, seen, n)
  }

  /** Look `n` counts no cards but so many place links, and no place has been seen before it. */
  predicate Blank(page: Page, seen: nat -> seq<Place>, n: nat, stray: nat) {
    seen(n) == [] && page.rounds(n).cardCount == Some(0) && page.rounds(n).strayLinks == Some(stray)
  }

  ghost predicate EndsSo(page: Page, maxResults: int, seen: nat -> seq<Place>, end: FeedEnd) {
    exists n :: EndsAt(page, maxResults, seen, end, n)
  }

  /** Counting cards raises at look `n`, or counting stray links does where that is asked for. */
  predicate Uncounted(page: Page, seen: nat -> seq<Place>, n: nat) {
    || page.rounds(n).cardCount == None
    || (page.rounds(n).cardCount == Some(0) && seen(n) == [] && page.rounds(n).strayLinks == None)
  }

  /** The limited walk has found as many places as the whole one, up to the limit. */
  ghost predicate Agree(maxResults: int, found: nat -> seq<Place>, seen: nat -> seq<Place>) {
    forall k: nat {:trigger found(k)} {:trigger seen(k)} :: found(k) == Take(seen(k), maxResults)
  }

  lemma FoundAgrees(page: Page, maxResults: int)
    ensures Agree(maxResults, FoundBy(page, maxResults), SeenBy(page))
  {
    forall k: nat ensures FoundBy(page, maxResults)(k) == Take(SeenBy(page)(k), maxResults) {
      LimitedIsTake(Shown(page, k), maxResults);
    }
  }

  lemma TakenFurther(page: Page, maxResults: int, seen: nat -> seq<Place>, j: nat)
    requires j > 0 ==> Taken(page, maxResults, seen, j - 1) && Passed(page, seen, j - 1) && page.rounds(j - 1).scrolls
    requires Wanted(maxResults, seen, j)
    ensures Taken(page, maxResults, seen, j)
  {
  }

  lemma {:induction false} EndsFrom(page: Page, maxResults: int, found: nat -> seq<Place>, seen: nat -> seq<Place>,
                                    j: nat)
    requires Agree(maxResults, found, seen)
    requires j > 0 ==> Taken(page, maxResults, seen, j - 1) && Passed(page, seen, j - 1) && page.rounds(j - 1).scrolls
    ensures EndsSo(page, maxResults, seen, EndOfFeed(page, maxResults, found, j))
    decreases MaxScrolls(maxResults) - j
  {
    var end, look := EndOfFeed(page, maxResults, found, j), page.rounds(j);
    assert found(j) == Take(seen(j), maxResults);
    if !Wanted(maxResults, seen, j) {
      assert EndsAt(page, maxResults, seen, end, j);
    } else {
      TakenFurther(page, maxResults, seen, j);
      match AtLook(look, j, found(j))
      case None => EndsFrom(page, maxResults, found, seen, j + 1);
      case Some(Finished(n)) => assert EndsAt(page, maxResults, seen, end, j + 1);
      case Some(StaleCards(n)) =>
        assert Blank(page, seen, j, look.strayLinks.value);
        assert EndsAt(page, maxResults, seen, end, j);
      case _ => assert EndsAt(page, maxResults, seen, end, j);
    }
  }

  /** Where a reading ends no later one can: its last look would have to pass, or to be followed by a wanted one. */
  lemma EndsNoLater(page: Page, maxResults: int, seen: nat -> seq<Place>, a: FeedEnd, m: nat, b: FeedEnd, n: nat)
    requires m < n && EndsAt(page, maxResults, seen, b, n)
    ensures !EndsAt(page, maxResults, seen, a, m)
  {
    assert Passed(page, seen, m) && Wanted(maxResults, seen, m);
    if m > 0 {
      assert Passed(page, seen, m - 1);
    }
  }

  lemma EndsOneWay(page: Page, maxResults: int, seen: nat -> seq<Place>, a: FeedEnd, b: FeedEnd, n: nat)
    requires EndsAt(page, maxResults, seen, a, n) && EndsAt(page, maxResults, seen, b, n)
    ensures a == b
  {
    if n > 0 && Taken(page, maxResults, seen, n) {
      assert Passed(page, seen, n - 1);
    }
  }

  /**
   * How every feed ends, exactly. Looks are taken, five of them or a quarter of the maximum, while places are
   * wanting and each look passes and scrolls on; the first one that does not, decides.
   */
  lemma FeedEndIff(page: Page, maxResults: int, end: FeedEnd)
    ensures end == FeedEndOf(page, maxResults) <==> EndsSo(page, maxResults, SeenBy(page), end)
  {
    var seen, actual := SeenBy(page), FeedEndOf(page, maxResults);
    FoundAgrees(page, maxResults);
    EndsFrom(page, maxResults, FoundBy(page, maxResults), seen, 0);
    if EndsSo(page, maxResults, seen, end) {
      var m: nat :| EndsAt(page, maxResults, seen, end, m);
      var n: nat :| EndsAt(page, maxResults, seen, actual, n);
      if m < n {
        EndsNoLater(page, maxResults, seen, end, m, actual, n);
      } else if n < m {
        EndsNoLater(page, maxResults, seen, actual, n, end, m);
      }
      EndsOneWay(page, maxResults, seen, end, actual, n);
    }
  }

  // ---- What an answer is a list of ----------------------------------------------------------------------

  /** `places` are what a walk over all cards of the first `n` looks finds, and there is a reason to stop there. */
  ghost predicate FeedRead(page: Page, maxResults: int, n: nat, places: seq<Place>, labelled: bool) {
    && places == Take(SeenBy(page)(n), maxResults)
    && if labelled then Taken(page, maxResults, SeenBy(page), n) && Blank(page, SeenBy(page), n, 0)
       else Complete(page, maxResults, SeenBy(page), n)
  }

  /** The places are those of the links found the second time, as far as they were asked for. */
  ghost predicate LinksRead(page: Page, maxResults: int, places: seq<Place>) {
    page.linksAgain.Some? && exists n: nat ::
      && places == Harvest(Cards(page.links, n)).places
      && n <= page.linksAgain.value && (0 < n ==> n <= maxResults)
      && (n < page.linksAgain.value ==> maxResults <= n)
  }

  /** Where the places answered come from, layout by layout. */
  ghost predicate Explained(page: Page, maxResults: int, places: seq<Place>, labelled: bool) {
    page.feedCount.Some? &&
    if page.feedCount.value > 0 then exists n: nat :: FeedRead(page, maxResults, n, places, labelled)
    else !labelled && page.linkCount.Some? &&
         if page.linkCount.value > 0 then LinksRead(page, maxResults, places)
         else page.single.Got? && places == [page.single.place]
  }

  lemma FeedIsRead(page: Page, maxResults: int)
    requires FeedOutcome(page, maxResults).Ok?
    ensures var o := FeedOutcome(page, maxResults).value;
      exists n: nat :: FeedRead(page, maxResults, n, o.tally.places, o.unverified)
  {
    var end := FeedEndOf(page, maxResults);
    FeedEndIff(page, maxResults, end);
    var n: nat :| EndsAt(page, maxResults, SeenBy(page), end, n);
    LimitedIsTake(Shown(page, n), maxResults);
    var o := FeedOutcome(page, maxResults).value;
    assert FeedRead(page, maxResults, n, o.tally.places, o.unverified);
  }

  lemma AnswerIsExplained(page: Page, maxResults: int)
    requires PageOutcome(page, maxResults).Ok? && Believable(page.loaded, PageOutcome(page, maxResults).value)
    ensures var o := PageOutcome(page, maxResults).value;
      Explained(page, maxResults, o.tally.places, o.unverified)
  {
    if page.feedCount.value > 0 {
      FeedIsRead(page, maxResults);
    } else if page.linkCount.value > 0 {
      var n := Max(0, Min(page.linksAgain.value, maxResults));
      assert LinksRead(page, maxResults, Harvest(Cards(page.links, n)).places);
    }
  }

  /**
   * A feed yields fewer places than asked for only when it has no more to show: a look refused to scroll, the
   * labelled blank look was met, or five looks and a quarter of the maximum have been taken, which are never
   * exceeded. The places are then all that those looks show.
   */
  lemma FewerOnlyAtTheEnd(page: Page, maxResults: int, n: nat, places: seq<Place>, labelled: bool)
    requires FeedRead(page, maxResults, n, places, labelled) && 1 <= maxResults
    ensures n <= 5 || n <= maxResults / 4
    ensures |places| < maxResults ==>
      && places == SeenBy(page)(n)
      && (labelled || (n > 0 && !page.rounds(n - 1).scrolls) || (5 <= n && maxResults / 4 <= n))
    ensures labelled ==> places == []
  {
    if labelled {
      assert Wanted(maxResults, SeenBy(page), n);
    } else if n > 0 {
      assert Wanted(maxResults, SeenBy(page), n - 1);
    }
  }

  /** What the looks show: every counted card of every look, look by look, in the order of the page. */
  lemma {:induction false} ShownInOrder(page: Page, i: nat, k: nat)
    requires i < k
    ensures Shown(page, 0) == [] && Shown(page, i) <= Shown(page, i + 1) <= Shown(page, k)
    ensures var n := page.rounds(i).cardCount;
      |Shown(page, i + 1)| == |Shown(page, i)| + if n.Some? then n.value else 0
    ensures forall j :: |Shown(page, i)| <= j < |Shown(page, i + 1)| ==>
      Shown(page, k)[j] == page.rounds(i).cards(j - |Shown(page, i)|)
    decreases k
  {
    if i + 1 < k {
      ShownInOrder(page, i, k - 1);
    }
  }

  /** The missing fields recorded are those that the opened cards lacked. */
  lemma {:induction false} MissesAreTheFieldsLacked(trace: seq<Card>, field: string)
    ensures field in Harvest(trace).misses <==>
      exists i :: i in OpenedAt(trace) && trace[i].details.Missing? && field in trace[i].details.fields
  {
    if trace != [] {
      var front := trace[..|trace| - 1];
      MissesAreTheFieldsLacked(front, field);
      OpenedFront(trace);
      if trace[|trace| - 1].Named? {
        LastCardSeen(trace);
      }
      assert forall i :: i in OpenedAt(front) ==> front[i] == trace[i];
    }
  }

  // ---- The main results about answers --------------------------------------------------------------

  /** The label tells every empty answer but the silent ones, and no other answer carries it. */
  lemma LabelledIff(page: Page, maxResults: int)
    requires PageOutcome(page, maxResults).Ok? && Believable(page.loaded, PageOutcome(page, maxResults).value)
    ensures var o := PageOutcome(page, maxResults).value;
      o.unverified <==> o.tally.places == [] && !Silent(page, maxResults)
  {
    if page.feedCount.value > 0 {
      if 1 <= maxResults {
        BlankFeedIff(page, maxResults);
      } else {
        assert FeedEndOf(page, maxResults) == Finished(0);
      }
    }
  }

  /**
   * An empty answer, exactly: asked for something, only a feed whose first look is blank or links that vanish
   * between the two counts yield one; asked for nothing, every page that lists results does.
   */
  lemma EmptyAnswerIff(page: Page, maxResults: int)
    ensures Answer(page, maxResults) == Ok([]) <==>
      && page.creates && page.navigates && page.loaded && page.disposes
      && (if 1 <= maxResults then BlankFeed(page) || LinksVanish(page) else Listed(page))
  {
    if page.feedCount.Some? && page.feedCount.value > 0 {
      if 1 <= maxResults {
        BlankFeedIff(page, maxResults);
      } else {
        assert FeedEndOf(page, maxResults) == Finished(0);
        assert Reading(page, maxResults, 0).places == [];
      }
    } else if page.linkCount.Some? && page.linkCount.value > 0 && page.linksAgain.Some? {
      var n := Max(0, Min(page.linksAgain.value, maxResults));
      NoMorePlacesThanCards(Cards(page.links, n));
    }
  }

  /** The page lists results, in a feed or as links that can be counted again. */
  predicate Listed(page: Page) {
    && page.feedCount.Some?
    && (page.feedCount.value > 0 ||
        (page.linkCount.Some? && page.linkCount.value > 0 && page.linksAgain.Some?))
  }

  lemma FeedReadIsTheOutcome(page: Page, maxResults: int, n: nat, places: seq<Place>)
    requires FeedRead(page, maxResults, n, places, false)
    ensures FeedEndOf(page, maxResults) == Finished(n) && Reading(page, maxResults, n).places == places
  {
    assert EndsAt(page, maxResults, SeenBy(page), Finished(n), n);
    FeedEndIff(page, maxResults, Finished(n));
    LimitedIsTake(Shown(page, n), maxResults);
  }

  lemma ExplainedIsRead(page: Page, maxResults: int, places: seq<Place>)
    ensures Explained(page, maxResults, places, false) && places != [] ==>
      PageOutcome(page, maxResults).Ok? && PageOutcome(page, maxResults).value.tally.places == places
  {
    if Explained(page, maxResults, places, false) && places != [] && page.feedCount.value > 0 {
      var n: nat :| FeedRead(page, maxResults, n, places, false);
      FeedReadIsTheOutcome(page, maxResults, n, places);
    }
  }

  /**
   * A list of places is answered exactly when the page can be reached, its layout explains the list, and some
   * place on it has a core field.
   */
  lemma PlacesAnswerIff(page: Page, maxResults: int, places: seq<Place>)
    requires places != []
    ensures Answer(page, maxResults) == Ok(places) <==>
      && page.creates && page.navigates && (page.loaded || page.titled) && page.disposes
      && Explained(page, maxResults, places, false)
      && exists place :: place in places && !place.partial
  {
    SomePlaceIsWhole(places);
    ExplainedIsRead(page, maxResults, places);
    if Answer(page, maxResults) == Ok(places) {
      AnswerIsExplained(page, maxResults);
      LabelledIff(page, maxResults);
    }
  }

  /**
   * The silent family is not empty: three links counted, none left to extract, and the answer is an unlabelled
   * empty list.
   */
  lemma VanishedLinksAreSilent(links: nat -> Card, maxResults: int)
    requires 1 <= maxResults
    ensures var look := Round(None, None, links, false);
      var page := Page(true, true, true, true, true, Some(0), _ => look, Some(3), Some(0), links, Nothing);
      Answer(page, maxResults) == Ok([]) && !PageOutcome(page, maxResults).value.unverified
  {
  }

  // ---- The scrape job ------------------------------------------------------------------------------

  datatype JobStatus = Pending | Running | Completed | Failed

  /** What the record store receives of a job. */
  datatype JobRecord = JobRecord(
    status: JobStatus,
    results: seq<Place>,
    total: nat,
    progress: nat,
    emptyUnverified: bool,
    error: Option<Failure>,
    selectorsStale: bool)

  /** A stored job is honest about the cause of a failure, and about emptiness unless the page made it silent. */
  ghost predicate Honest(j: JobRecord, page: Page, maxResults: int) {
    && (j.status.Completed? ==>
          && j.total == |j.results| && j.progress == |j.results| && j.error.None?
          && (j.results != [] ==> exists place :: place in j.results && !place.partial)
          && (j.results == [] ==> (j.emptyUnverified <==> !Silent(page, maxResults))))
    && (j.emptyUnverified ==> j.results == [])
    && (j.status.Failed? ==> j.error.Some?)
    && (j.selectorsStale <==> j.error.Some? && j.error.value.Stale?)
  }

  class ScrapeJob {
    var status: JobStatus
    var results: seq<Place>
    var total: nat
    var progress: nat
    var emptyUnverified: bool
    var error: Option<Failure>
    var selectorsStale: bool

    constructor ()
      ensures Record() == JobRecord(Pending, [], 0, 0, false, None, false)
    {
      status, results, total, progress := Pending, [], 0, 0;
      emptyUnverified, error, selectorsStale := false, None, false;
    }

    function Record(): JobRecord
      reads this
    {
      JobRecord(status, results, total, progress, emptyUnverified, error, selectorsStale)
    }

    method Complete(places: seq<Place>, unverified: bool)
      modifies this`results, this`status, this`total, this`progress, this`emptyUnverified
      ensures Record() == old(Record()).(
                            status := Completed, results := places, total := |places|, progress := |places|,
                            emptyUnverified := unverified && places == [])
    {
      results, status := places, Completed;
      total, progress := |places|, |places|;
      emptyUnverified := unverified && places == [];
    }

    /** The two exception handlers: a stale parser is flagged as such. */
    method Fail(failure: Failure)
      modifies this`status, this`error, this`selectorsStale
      ensures Record() == old(Record()).(
                            status := Failed, error := Some(failure),
                            selectorsStale := old(selectorsStale) || failure.Stale?)
    {
      status, error := Failed, Some(failure);
      if failure.Stale? {
        selectorsStale := true;
      }
    }
  }

  /**
   * Runs a job on a fresh scraper. `saves(n)` says whether the n-th write to the record store
   * returns; `saved` are the records written. A write that raises while the job is being marked
   * FAILED escapes to the caller, after the scraper has been closed.
   */
  method RunScrapeJob(job: ScrapeJob, page: Page, maxResults: int, saves: nat -> bool)
    returns (saved: seq<JobRecord>, raised: bool, scraper: Scraper)
    requires job.Record() == JobRecord(Pending, [], 0, 0, false, None, false)
    modifies job
    ensures fresh(scraper) && !scraper.open
    ensures forall k :: 0 <= k < |saved| ==> Honest(saved[k], page, maxResults)
    ensures Honest(job.Record(), page, maxResults)
    ensures job.status == if saves(0) && saves(1) && Answer(page, maxResults).Ok? then Completed else Failed
    ensures job.results == if saves(0) && Answer(page, maxResults).Ok? then Answer(page, maxResults).value else []
    ensures job.status.Failed? ==>
      job.error == Some(if saves(0) && Answer(page, maxResults).Err? then Answer(page, maxResults).error else Other)
    ensures !raised ==> saved != [] && saved[|saved| - 1] == job.Record()
    ensures raised ==> job.status.Failed?
  {
    scraper := new Scraper();
    saved, raised := [], false;
    var writes := 1;
    job.status := Running;
    var failure: Option<Failure> := None;
    if saves(0) {
      saved := [job.Record()];
      var r := scraper.Search(page, maxResults);
      if r.Ok? {
        job.Complete(r.value, scraper.unverifiedEmpty);
        writes := 2;
        if saves(1) {
          saved := saved + [job.Record()];
        } else {
          failure := Some(Other);
        }
      } else {
        failure := Some(r.error);
      }
    } else {
      failure := Some(Other);
    }
    if failure.Some? {
      job.Fail(failure.value);
      if saves(writes) {
        saved := saved + [job.Record()];
      } else {
        raised := true;
      }
    }
    scraper.Close();
  }
}

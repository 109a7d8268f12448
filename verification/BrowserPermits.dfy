/**
 * Browser permits: a semaphore per event loop and configuration, acquired before
 * a browser is launched and given back when its scraper is closed.
 *
 * A scraper's initialisation is single-entry (it runs under the scraper's own
 * lock), but it is suspended while it waits for a permit and while the browser
 * launches; other scrapers, reconfigurations and closes run in between.
 */
module BrowserPermits {
  import opened Prelude

  /**
   * A semaphore: its capacity when created and the permits left. `strays` counts the permits
   * given back by a failed launch after a close had already given them back.
   */
  datatype Semaphore = Semaphore(cap: nat, available: int, strays: nat)

  /** Where the coroutine inside a scraper's initialisation lock stands. */
  datatype Phase = Idle | Waiting(generation: nat) | Launching(generation: nat)

  /** `permit` is the semaphore the scraper holds a permit of. */
  datatype Scraper = Scraper(permit: Option<nat>, browser: bool, phase: Phase)

  /** `generations` are all semaphores ever created, `current` the one each event loop uses now. */
  datatype State = State(
    cap: nat,
    generations: seq<Semaphore>,
    current: map<nat, nat>,
    scrapers: map<nat, Scraper>)

  datatype Event =
    | Configure(cap: int)               // configure_limits(max_concurrent_browsers=cap)
    | Enter(scraper: nat, loop: nat)    // a coroutine gets the scraper's initialisation lock
    | Acquire(scraper: nat)
    | Cancel(scraper: nat)              // the wait for a permit is cancelled
    | LaunchDone(scraper: nat)
    | LaunchFailed(scraper: nat)
    | BrowserGone(scraper: nat)         // close(): the browser has shut down
    | Release(scraper: nat)             // close(): the finally block

  const UNTOUCHED := Scraper(None, false, Idle)

  function Of(s: State, i: nat): Scraper {
    if i in s.scrapers then s.scrapers[i] else UNTOUCHED
  }

  function With(s: State, i: nat, x: Scraper): State {
    s.(scrapers := s.scrapers[i := x])
  }

  function GiveBack(s: State, g: nat, stray: nat): State {
    if g < |s.generations| then
      var sem := s.generations[g];
      s.(generations := s.generations[g := sem.(available := sem.available + 1, strays := sem.strays + stray)])
    else s
  }

  /** Changing the cap discards the semaphores in use; a cap below one is refused. */
  function Configured(s: State, cap: int): State {
    if cap < 1 then s else s.(cap := cap, current := map[])
  }

  /** The loop's semaphore, created with the present cap when there is none. */
  function WithSemaphore(s: State, loop: nat): State {
    if loop in s.current then s
    else
      s.(generations := s.generations + [Semaphore(s.cap, s.cap, 0)],
         current := s.current[loop := |s.generations|])
  }

  function Step(s: State, e: Event): State {
    match e
    case Configure(cap) => Configured(s, cap)
    case Enter(i, loop) =>
      var x := Of(s, i);
      if !x.phase.Idle? || x.browser || x.permit.Some? then s
      else
        var t := WithSemaphore(s, loop);
        With(t, i, x.(phase := Waiting(t.current[loop])))
    case Acquire(i) =>
      var x := Of(s, i);
      if !x.phase.Waiting? || x.phase.generation >= |s.generations|
         || s.generations[x.phase.generation].available <= 0 then s
      else
        var g := x.phase.generation;
        var left := s.generations[g].available - 1;
        With(s.(generations := s.generations[g := s.generations[g].(available := left)]), i,
             x.(permit := Some(g), phase := Launching(g)))
    case Cancel(i) =>
      if Of(s, i).phase.Waiting? then With(s, i, Of(s, i).(phase := Idle)) else s
    case LaunchDone(i) =>
      if Of(s, i).phase.Launching? then With(s, i, Of(s, i).(phase := Idle, browser := true)) else s
    case LaunchFailed(i) =>
      var x := Of(s, i);
      if !x.phase.Launching? then s
      else GiveBack(With(s, i, x.(permit := None, phase := Idle)), x.phase.generation, if x.permit.None? then 1 else 0)
    case BrowserGone(i) =>
      if i in s.scrapers then With(s, i, s.scrapers[i].(browser := false)) else s
    case Release(i) =>
      match Of(s, i).permit
      case None => s
      case Some(g) => GiveBack(With(s, i, Of(s, i).(permit := None)), g, 0)
  }

  function After(cap: nat, run: seq<Event>): State {
    if run == [] then State(cap, [], map[], map[]) else Step(After(cap, run[..|run| - 1]), run[|run| - 1])
  }

  // ---- Conservation ---------------------------------------------------------------------------

  /** The scrapers that hold a permit of generation `g`. */
  function Holders(scrapers: map<nat, Scraper>, g: nat): set<nat> {
    set i | i in scrapers && scrapers[i].permit == Some(g)
  }

  /** One when scraper `i` holds a permit of generation `g`, else zero. */
  function Held(s: State, i: nat, g: nat): nat {
    if Of(s, i).permit == Some(g) then 1 else 0
  }

  /**
   * A waiting scraper holds nothing; a launching one holds the permit it launches with, unless it was closed
   * meanwhile.
   */
  predicate ScraperOk(x: Scraper, generations: nat) {
    && (x.permit.Some? ==> x.permit.value < generations)
    && (!x.phase.Idle? ==> x.phase.generation < generations)
    && (x.phase.Waiting? ==> x.permit.None?)
    && (x.phase.Launching? && x.permit.Some? ==> x.permit.value == x.phase.generation)
  }

  ghost predicate Shaped(s: State) {
    && (forall loop :: loop in s.current ==> s.current[loop] < |s.generations|)
    && (forall i :: i in s.scrapers ==> ScraperOk(s.scrapers[i], |s.generations|))
  }

  /** Permits left and permits held make up the capacity, plus whatever was given back twice. */
  ghost predicate Balanced(s: State, g: nat)
    requires g < |s.generations|
  {
    && 0 <= s.generations[g].available
    && s.generations[g].available + |Holders(s.scrapers, g)| == s.generations[g].cap + s.generations[g].strays
  }

  ghost predicate Conserved(s: State) {
    forall g: nat :: g < |s.generations| ==> Balanced(s, g)
  }

  lemma OneElement(before: set<nat>, after: set<nat>, i: nat)
    requires before - {i} == after - {i}
    ensures |after| == |before| - (if i in before then 1 else 0) + (if i in after then 1 else 0)
  {
    assert before == if i in before then (before - {i}) + {i} else before - {i};
    assert after == if i in after then (after - {i}) + {i} else after - {i};
  }

  /**
   * A step that touches one scraper keeps a generation balanced when the permits left make up for the permit it
   * gained or lost.
   */
  lemma BalancedAfter(s: State, t: State, i: nat, g: nat)
    requires g < |s.generations| && g < |t.generations| && Balanced(s, g)
    requires i in t.scrapers && t.scrapers == s.scrapers[i := t.scrapers[i]]
    requires t.generations[g].cap == s.generations[g].cap && 0 <= t.generations[g].available
    requires t.generations[g].available - t.generations[g].strays + Held(t, i, g)
             == s.generations[g].available - s.generations[g].strays + Held(s, i, g)
    ensures Balanced(t, g)
  {
    OneElement(Holders(s.scrapers, g), Holders(t.scrapers, g), i);
  }

  lemma SemaphoreKeeps(s: State, loop: nat)
    requires Shaped(s) && Conserved(s)
    ensures var t := WithSemaphore(s, loop);
      Shaped(t) && Conserved(t) && t.scrapers == s.scrapers && loop in t.current && |s.generations| <= |t.generations|
  {
    var t := WithSemaphore(s, loop);
    forall g: nat | g < |t.generations| ensures Balanced(t, g) {
      if g == |s.generations| {
        assert Holders(s.scrapers, g) == {};
      } else {
        assert Balanced(s, g);
      }
    }
  }

  lemma StepShaped(s: State, e: Event)
    requires Shaped(s) && !e.Enter?
    ensures Shaped(Step(s, e)) && |Step(s, e).generations| == |s.generations|
  {
  }

  lemma EnterKeeps(s: State, i: nat, loop: nat)
    requires Shaped(s) && Conserved(s)
    ensures Shaped(Step(s, Enter(i, loop))) && Conserved(Step(s, Enter(i, loop)))
  {
    SemaphoreKeeps(s, loop);
    var t, u := WithSemaphore(s, loop), Step(s, Enter(i, loop));
    forall g: nat | g < |u.generations| ensures Balanced(u, g) {
      assert Balanced(t, g);
      if u != s {
        BalancedAfter(t, u, i, g);
      }
    }
  }

  lemma AcquireBalances(s: State, i: nat, g: nat)
    requires Shaped(s) && g < |s.generations| && Balanced(s, g)
    ensures Balanced(Step(s, Acquire(i)), g)
  {
    var t := Step(s, Acquire(i));
    if t != s {
      BalancedAfter(s, t, i, g);
    }
  }

  lemma LaunchFailedBalances(s: State, i: nat, g: nat)
    requires Shaped(s) && g < |s.generations| && Balanced(s, g)
    ensures Balanced(Step(s, LaunchFailed(i)), g)
  {
    var t := Step(s, LaunchFailed(i));
    if Of(s, i).phase.Launching? {
      BalancedAfter(s, t, i, g);
    }
  }

  lemma ReleaseBalances(s: State, i: nat, g: nat)
    requires Shaped(s) && g < |s.generations| && Balanced(s, g)
    ensures Balanced(Step(s, Release(i)), g)
  {
    var t := Step(s, Release(i));
    if Of(s, i).permit.Some? {
      BalancedAfter(s, t, i, g);
    }
  }

  lemma OtherBalances(s: State, e: Event, g: nat)
    requires e.Configure? || e.Cancel? || e.LaunchDone? || e.BrowserGone?
    requires g < |s.generations| && Balanced(s, g)
    ensures Balanced(Step(s, e), g)
  {
    var t := Step(s, e);
    if t.scrapers != s.scrapers {
      BalancedAfter(s, t, e.scraper, g);
    }
  }

  lemma StepKeeps(s: State, e: Event)
    requires Shaped(s) && Conserved(s)
    ensures Shaped(Step(s, e)) && Conserved(Step(s, e))
  {
    if e.Enter? {
      EnterKeeps(s, e.scraper, e.loop);
    } else {
      StepShaped(s, e);
      forall g: nat | g < |s.generations| ensures Balanced(Step(s, e), g) {
        assert Balanced(s, g);
        match e
        case Acquire(i) => AcquireBalances(s, i, g);
        case LaunchFailed(i) => LaunchFailedBalances(s, i, g);
        case Release(i) => ReleaseBalances(s, i, g);
        case _ => OtherBalances(s, e, g);
      }
    }
  }

  lemma {:induction false} AfterKeeps(cap: nat, run: seq<Event>)
    ensures Shaped(After(cap, run)) && Conserved(After(cap, run))
  {
    if run != [] {
      AfterKeeps(cap, run[..|run| - 1]);
      StepKeeps(After(cap, run[..|run| - 1]), run[|run| - 1]);
    }
  }

  // ---- Main results ---------------------------------------------------------------------------------

  /** The accounting every run obeys, in every generation: no permit is lost, whatever the interleaving. */
  lemma PermitsAreConserved(cap: nat, run: seq<Event>, g: nat)
    requires g < |After(cap, run).generations|
    ensures var s := After(cap, run); var sem := s.generations[g];
      && 0 <= sem.available
      && sem.available + |Holders(s.scrapers, g)| == sem.cap + sem.strays
  {
    AfterKeeps(cap, run);
    assert Balanced(After(cap, run), g);
  }

  /** The launch fails after a close has given back the permit it was using. */
  predicate LateFailure(s: State, e: Event) {
    e.LaunchFailed? && Of(s, e.scraper).phase.Launching? && Of(s, e.scraper).permit.None?
  }

  ghost predicate NoLateFailure(cap: nat, run: seq<Event>) {
    forall k :: 0 <= k < |run| ==> !LateFailure(After(cap, run[..k]), run[k])
  }

  ghost predicate NoStrays(s: State) {
    forall g :: 0 <= g < |s.generations| ==> s.generations[g].strays == 0
  }

  lemma StrayStep(s: State, e: Event)
    requires Shaped(s)
    ensures NoStrays(Step(s, e)) <==> NoStrays(s) && !LateFailure(s, e)
  {
    var t := Step(s, e);
    if LateFailure(s, e) {
      assert t.generations[Of(s, e.scraper).phase.generation].strays > 0;
    } else {
      assert forall g :: 0 <= g < |s.generations| ==>
        g < |t.generations| && t.generations[g].strays == s.generations[g].strays;
    }
  }

  lemma NoLateFailureUnfolds(cap: nat, run: seq<Event>)
    requires run != []
    ensures var front := run[..|run| - 1];
      NoLateFailure(cap, run) <==> NoLateFailure(cap, front) && !LateFailure(After(cap, front), run[|run| - 1])
  {
    var front := run[..|run| - 1];
    assert forall k :: 0 <= k < |front| ==> front[..k] == run[..k] && front[k] == run[k];
  }

  lemma {:induction false} StraysCountLateFailures(cap: nat, run: seq<Event>)
    ensures NoLateFailure(cap, run) <==> NoStrays(After(cap, run))
  {
    if run != [] {
      var front := run[..|run| - 1];
      StraysCountLateFailures(cap, front);
      AfterKeeps(cap, front);
      NoLateFailureUnfolds(cap, run);
      StrayStep(After(cap, front), run[|run| - 1]);
    }
  }

  /** Permits left plus permits held are the capacity, in every generation. */
  ghost predicate Exact(s: State) {
    forall g: nat :: g < |s.generations| ==>
      s.generations[g].available + |Holders(s.scrapers, g)| == s.generations[g].cap
  }

  lemma ExactWithoutStrays(s: State)
    requires Conserved(s)
    ensures Exact(s) <==> NoStrays(s)
  {
    forall g: nat | g < |s.generations|
      ensures s.generations[g].available + |Holders(s.scrapers, g)| == s.generations[g].cap + s.generations[g].strays
    {
      assert Balanced(s, g);
    }
    if Exact(s) {
      assert forall g: nat :: g < |s.generations| ==> s.generations[g].strays == 0;
    }
  }

  /**
   * Every generation keeps `available + holders == cap` exactly when no launch fails
   * after its scraper's permit was given back while the launch was under way.
   */
  lemma ExactlyConservedIff(cap: nat, run: seq<Event>)
    ensures Exact(After(cap, run)) <==> NoLateFailure(cap, run)
  {
    AfterKeeps(cap, run);
    StraysCountLateFailures(cap, run);
    ExactWithoutStrays(After(cap, run));
  }

  /**
   * The failing family is not empty: closing a scraper under its own launch, then losing the launch, frees a
   * permit too many.
   */
  lemma ClosingDuringLaunchMintsAPermit(loop: nat, i: nat)
    ensures var s := After(1, [Enter(i, loop), Acquire(i), Release(i), LaunchFailed(i)]);
      |s.generations| == 1 && s.generations[0].cap == 1 && s.generations[0].available == 2
  {
    var run := [Enter(i, loop), Acquire(i), Release(i), LaunchFailed(i)];
    var r1, r2, r3 := run[..1], run[..2], run[..3];
    assert r1[..0] == [] && r2[..1] == r1 && r3[..2] == r2;
    var s1 := After(1, r1);
    assert After(1, []) == State(1, [], map[], map[]) && r1[0] == Enter(i, loop);
    assert s1 == Step(After(1, r1[..0]), r1[0]);
    assert s1.scrapers[i] == Scraper(None, false, Waiting(0));
    var s2 := After(1, r2);
    assert s2 == Step(s1, Acquire(i));
    var s3 := After(1, r3);
    assert s3 == Step(s2, Release(i));
    assert After(1, run) == Step(s3, LaunchFailed(i));
  }

  /** Every event loop has a semaphore of its own, made for the cap that is configured now. */
  ghost predicate UpToDate(s: State) {
    && (forall loop :: loop in s.current ==>
          s.current[loop] < |s.generations| && s.generations[s.current[loop]].cap == s.cap)
    && (forall l, m :: l in s.current && m in s.current && l != m ==> s.current[l] != s.current[m])
  }

  lemma SemaphoreStaysUpToDate(s: State, loop: nat)
    requires UpToDate(s)
    ensures UpToDate(WithSemaphore(s, loop))
  {
  }

  /** Permits come and go without touching caps or the table of semaphores. */
  ghost predicate SameTable(s: State, t: State) {
    && t.cap == s.cap && t.current == s.current && |t.generations| == |s.generations|
    && forall g :: 0 <= g < |s.generations| ==> t.generations[g].cap == s.generations[g].cap
  }

  lemma OthersKeepTheTable(s: State, e: Event)
    requires !e.Configure? && !e.Enter?
    ensures SameTable(s, Step(s, e))
  {
  }

  lemma StepStaysUpToDate(s: State, e: Event)
    requires UpToDate(s)
    ensures UpToDate(Step(s, e))
  {
    if e.Enter? {
      SemaphoreStaysUpToDate(s, e.loop);
    } else if !e.Configure? {
      OthersKeepTheTable(s, e);
    }
  }

  /** Reconfiguring takes effect: after any run, whoever enters next does so under the cap configured last. */
  lemma {:induction false} NewcomersGetTheNewCap(cap: nat, run: seq<Event>)
    ensures UpToDate(After(cap, run))
  {
    if run != [] {
      NewcomersGetTheNewCap(cap, run[..|run| - 1]);
      StepStaysUpToDate(After(cap, run[..|run| - 1]), run[|run| - 1]);
    }
  }

  // ---- Resident browsers ------------------------------------------------------------------------------

  /** A close of a scraper whose own launch is not under way, and whose browser has shut down. */
  predicate OrderlyStep(s: State, e: Event) {
    e.Release? ==> !Of(s, e.scraper).phase.Launching? && !Of(s, e.scraper).browser
  }

  ghost predicate Orderly(cap: nat, run: seq<Event>) {
    forall k :: 0 <= k < |run| ==> OrderlyStep(After(cap, run[..k]), run[k])
  }

  /** The scrapers of generation `g` whose browser is up or on its way up. */
  function Resident(scrapers: map<nat, Scraper>, g: nat): set<nat> {
    set i | i in scrapers && (scrapers[i].browser || scrapers[i].phase.Launching?) && scrapers[i].permit == Some(g)
  }

  /**
   * A browser that is up or on its way up is paid for by a permit, and a scraper never starts a second one
   * beside it.
   */
  predicate PaidFor(x: Scraper) {
    (x.browser || x.phase.Launching? ==> x.permit.Some?) && (x.browser ==> x.phase.Idle?)
  }

  ghost predicate Paid(s: State) {
    forall i :: i in s.scrapers ==> PaidFor(s.scrapers[i])
  }

  lemma {:induction false} OrderlyRunsPay(cap: nat, run: seq<Event>)
    requires Orderly(cap, run)
    ensures Paid(After(cap, run)) && NoLateFailure(cap, run)
  {
    if run != [] {
      var front := run[..|run| - 1];
      assert forall k :: 0 <= k < |front| ==> front[..k] == run[..k] && front[k] == run[k];
      assert OrderlyStep(After(cap, run[..|run| - 1]), run[|run| - 1]);
      OrderlyRunsPay(cap, front);
      PaidStep(After(cap, front), run[|run| - 1]);
      NoLateFailureUnfolds(cap, run);
    }
  }

  lemma PaidStep(s: State, e: Event)
    requires Paid(s) && OrderlyStep(s, e)
    ensures Paid(Step(s, e)) && !LateFailure(s, e)
  {
  }

  /**
   * What the permits are for: when every close waits for its browser and none interrupts its own
   * launch, every Chromium instance is paid for and no generation has more of them than its cap.
   */
  lemma BrowsersStayWithinTheCap(cap: nat, run: seq<Event>, g: nat)
    requires Orderly(cap, run) && g < |After(cap, run).generations|
    ensures var s := After(cap, run);
      Paid(s) && |Resident(s.scrapers, g)| <= s.generations[g].cap
  {
    var s := After(cap, run);
    OrderlyRunsPay(cap, run);
    ExactlyConservedIff(cap, run);
    PermitsAreConserved(cap, run, g);
    SubsetIsNoLarger(Resident(s.scrapers, g), Holders(s.scrapers, g));
  }

  // ---- When a scraper gets on, and what it gives back ---------------------------------------------------

  /** Nothing but scraper `i` and the permits left of generation `g` has changed, those by `change`. */
  ghost predicate OnlyMoved(s: State, t: State, i: nat, g: nat, change: int) {
    && SameTable(s, t) && g < |s.generations|
    && t.generations[g].available == s.generations[g].available + change
    && (forall h :: 0 <= h < |s.generations| && h != g ==> t.generations[h] == s.generations[h])
    && (forall j :: j != i ==> Of(t, j) == Of(s, j))
  }

  /**
   * Whoever waits gets on exactly when fewer scrapers hold permits of its generation than there are: its cap, and
   * the ones given back twice. It then holds one permit more and launches; otherwise nothing happens.
   */
  lemma AcquiresIff(cap: nat, run: seq<Event>, i: nat, g: nat)
    requires Of(After(cap, run), i).phase == Waiting(g)
    ensures var s := After(cap, run); var t := Step(s, Acquire(i));
      && g < |s.generations|
      && if |Holders(s.scrapers, g)| < s.generations[g].cap + s.generations[g].strays then
           && Of(t, i) == Of(s, i).(permit := Some(g), phase := Launching(g))
           && OnlyMoved(s, t, i, g, -1)
         else t == s
  {
    AfterKeeps(cap, run);
    assert Balanced(After(cap, run), g);
  }

  /**
   * An idle scraper without browser and permit, and no other, begins to wait for the semaphore its event loop uses
   * now; a loop that has none gets one with the cap configured now.
   */
  lemma EntersIff(cap: nat, run: seq<Event>, i: nat, loop: nat)
    ensures var s := After(cap, run); var x := Of(s, i); var t := Step(s, Enter(i, loop));
      if x.phase == Idle && !x.browser && x.permit == None then
        && loop in t.current && Of(t, i) == Scraper(None, false, Waiting(t.current[loop]))
        && (forall j :: j != i ==> Of(t, j) == Of(s, j)) && t.cap == s.cap
        && (if loop in s.current then t.current == s.current && t.generations == s.generations
            else (t.current == s.current[loop := |s.generations|]
                  && t.generations == s.generations + [Semaphore(s.cap, s.cap, 0)]))
      else t == s
  {
  }

  /** A close gives back the permit held, once, and only that one. */
  lemma ReleaseGivesBackWhatIsHeld(cap: nat, run: seq<Event>, i: nat)
    ensures var s := After(cap, run); var x := Of(s, i); var t := Step(s, Release(i));
      match x.permit
      case None => t == s
      case Some(g) => Of(t, i) == x.(permit := None) && OnlyMoved(s, t, i, g, 1)
  {
    AfterKeeps(cap, run);
  }

  /** A launch ends with a browser, or by giving back the permit it was begun with. */
  lemma LaunchEnds(cap: nat, run: seq<Event>, i: nat, g: nat)
    requires Of(After(cap, run), i).phase == Launching(g)
    ensures var s := After(cap, run); var x := Of(s, i);
      var done, failed := Step(s, LaunchDone(i)), Step(s, LaunchFailed(i));
      && Of(done, i) == Scraper(x.permit, true, Idle) && OnlyMoved(s, done, i, g, 0)
      && Of(failed, i) == Scraper(None, x.browser, Idle) && OnlyMoved(s, failed, i, g, 1)
  {
    AfterKeeps(cap, run);
  }

  /** A cancelled wait and a browser that has shut down move no permit. */
  lemma CancelAndShutdownMoveNoPermit(cap: nat, run: seq<Event>, i: nat, g: nat)
    requires g < |After(cap, run).generations|
    ensures var s := After(cap, run); var x := Of(s, i);
      var cancelled, gone := Step(s, Cancel(i)), Step(s, BrowserGone(i));
      && Of(cancelled, i) == (if x.phase.Waiting? then x.(phase := Idle) else x) && OnlyMoved(s, cancelled, i, g, 0)
      && Of(gone, i) == x.(browser := false) && OnlyMoved(s, gone, i, g, 0)
  {
  }

  /** A new cap of at least one is in force at once and every loop is to get a new semaphore; others are refused. */
  lemma ConfiguringReplacesTheTable(cap: nat, run: seq<Event>, newCap: int)
    ensures var s := After(cap, run); var t := Step(s, Configure(newCap));
      if 1 <= newCap then
        t.cap == newCap && t.current == map[] && t.generations == s.generations && t.scrapers == s.scrapers
      else t == s
  {
  }
}

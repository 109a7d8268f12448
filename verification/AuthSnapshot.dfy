/**
 * The authentication snapshot: settings and the keys derived from them, replaced
 * by one atomic rebind under a lock while any number of threads read it.
 */
module AuthSnapshot {
  import opened Prelude

  datatype Settings = Settings(apiKeys: seq<string>, apiKey: string, enabled: bool)

  // ---- Deriving the keys ----------------------------------------------------------------

  /** `str.isspace`: the white space of the Unicode standard and the four information separators. */
  predicate IsSpace(c: char) {
    || '\U{0009}' <= c <= '\U{000D}' || '\U{001C}' <= c <= '\U{0020}'
    || c == '\U{0085}' || c == '\U{00A0}' || c == '\U{1680}' || '\U{2000}' <= c <= '\U{200A}'
    || c == '\U{2028}' || c == '\U{2029}' || c == '\U{202F}' || c == '\U{205F}' || c == '\U{3000}'
  }

  const SPACES := "\t\n\U{000B}\U{000C}\r\U{001C}\U{001D}\U{001E}\U{001F} \U{0085}\U{00A0}\U{1680}"
    + "\U{2000}\U{2001}\U{2002}\U{2003}\U{2004}\U{2005}\U{2006}\U{2007}\U{2008}\U{2009}\U{200A}"
    + "\U{2028}\U{2029}\U{202F}\U{205F}\U{3000}"

  /** The same characters, one by one. */
  lemma SpacesAre(c: char)
    ensures IsSpace(c) <==> c in SPACES
  {
  }

  function StripLeft(s: string): string {
    if s != [] && IsSpace(s[0]) then StripLeft(s[1..]) else s
  }

  function StripRight(s: string): string {
    if s != [] && IsSpace(s[|s| - 1]) then StripRight(s[..|s| - 1]) else s
  }

  function Strip(s: string): string {
    StripRight(StripLeft(s))
  }

  function Candidates(s: Settings): seq<string> {
    if s.apiKey == "" then s.apiKeys else s.apiKeys + [s.apiKey]
  }

  /** The accepted keys: every configured key that is not blank, without surrounding space. */
  function KeysOf(s: Settings): set<string> {
    set k | k in Candidates(s) && Strip(k) != "" :: Strip(k)
  }

  lemma {:induction false} StripLeftClean(s: string)
    ensures var t := StripLeft(s); t == "" || !IsSpace(t[0])
  {
    if s != [] && IsSpace(s[0]) {
      StripLeftClean(s[1..]);
    }
  }

  lemma {:induction false} StripRightClean(s: string)
    ensures var t := StripRight(s);
      && |t| <= |s| && t == s[..|t|] && (t == "" || !IsSpace(t[|t| - 1]))
  {
    if s != [] && IsSpace(s[|s| - 1]) {
      StripRightClean(s[..|s| - 1]);
    }
  }

  /** An accepted key is never blank and has no space at either end. */
  lemma KeysAreClean(s: Settings, key: string)
    requires key in KeysOf(s)
    ensures Trimmed(key)
  {
    var raw :| raw in Candidates(s) && Strip(raw) != "" && Strip(raw) == key;
    StrippedIsTrimmed(raw);
  }

  predicate Trimmed(key: string) {
    key != "" && !IsSpace(key[0]) && !IsSpace(key[|key| - 1])
  }

  ghost predicate Blank(s: string) {
    forall i :: 0 <= i < |s| ==> IsSpace(s[i])
  }

  ghost predicate Around(left: string, key: string, right: string, raw: string) {
    Blank(left) && Blank(right) && raw == left + key + right
  }

  /** `key` is `raw` without the white space around it. */
  ghost predicate IsCore(key: string, raw: string) {
    Trimmed(key) && exists left, right :: Around(left, key, right, raw)
  }

  lemma MoreBlank(c: char, left: string, t: string)
    requires IsSpace(c) && Blank(left)
    ensures Blank([c] + left) && Blank(left + [c])
    ensures [c] + (left + t) == [c] + left + t && t + left + [c] == t + (left + [c])
  {
  }

  lemma {:induction false} StripLeftDrops(s: string) returns (left: string)
    ensures Blank(left) && s == left + StripLeft(s)
  {
    left := [];
    if s != [] && IsSpace(s[0]) {
      left := StripLeftDrops(s[1..]);
      MoreBlank(s[0], left, StripLeft(s));
      left := [s[0]] + left;
      assert s == [s[0]] + s[1..];
    }
  }

  lemma {:induction false} StripRightDrops(s: string) returns (right: string)
    ensures Blank(right) && s == StripRight(s) + right
  {
    right := [];
    if s != [] && IsSpace(s[|s| - 1]) {
      right := StripRightDrops(s[..|s| - 1]);
      MoreBlank(s[|s| - 1], right, StripRight(s));
      right := right + [s[|s| - 1]];
      assert s == s[..|s| - 1] + [s[|s| - 1]];
    }
  }

  lemma {:induction false} StripLeftSkips(left: string, t: string)
    requires Blank(left)
    ensures StripLeft(left + t) == StripLeft(t)
  {
    if left == [] {
      assert left + t == t;
    } else {
      assert (left + t)[1..] == left[1..] + t;
      StripLeftSkips(left[1..], t);
    }
  }

  lemma {:induction false} StripRightSkips(t: string, right: string)
    requires Blank(right)
    ensures StripRight(t + right) == StripRight(t)
  {
    if right == [] {
      assert t + right == t;
    } else {
      assert (t + right)[..|t + right| - 1] == t + right[..|right| - 1];
      StripRightSkips(t, right[..|right| - 1]);
    }
  }

  lemma CoreIsStripped(left: string, key: string, right: string)
    requires Trimmed(key) && Blank(left) && Blank(right)
    ensures Strip(left + key + right) == key
  {
    var t := key + right;
    assert left + key + right == left + t;
    StripLeftSkips(left, t);
    assert StripLeft(t) == t;
    StripRightSkips(key, right);
    assert StripRight(key) == key;
  }

  lemma StrippedIsTrimmed(raw: string)
    requires Strip(raw) != ""
    ensures Trimmed(Strip(raw))
  {
    StripLeftClean(raw);
    StripRightClean(StripLeft(raw));
  }

  lemma StrippedIsCore(raw: string)
    requires Strip(raw) != ""
    ensures IsCore(Strip(raw), raw)
  {
    var key, t := Strip(raw), StripLeft(raw);
    StrippedIsTrimmed(raw);
    var left := StripLeftDrops(raw);
    var right := StripRightDrops(t);
    assert Around(left, key, right, raw) by {
      assert raw == left + (key + right);
    }
  }

  /** Stripping finds the core of a key, and nothing but the core. */
  lemma StripIsCore(key: string, raw: string)
    ensures IsCore(key, raw) <==> Strip(raw) == key && key != ""
  {
    if IsCore(key, raw) {
      var left, right :| Around(left, key, right, raw);
      CoreIsStripped(left, key, right);
    }
    if Strip(raw) == key && key != "" {
      StrippedIsCore(raw);
    }
  }

  predicate Configured(s: Settings, raw: string) {
    raw in s.apiKeys || raw == s.apiKey
  }

  /** `key` is the core of a configured key. */
  ghost predicate Accepts(s: Settings, key: string) {
    exists raw :: Configured(s, raw) && IsCore(key, raw)
  }

  /** Both settings count: a key is accepted exactly when it is the core of a configured one. */
  lemma AcceptedIff(s: Settings, key: string)
    ensures key in KeysOf(s) <==> Accepts(s, key)
  {
    if key in KeysOf(s) {
      var raw :| raw in Candidates(s) && Strip(raw) != "" && Strip(raw) == key;
      StripIsCore(key, raw);
      assert Configured(s, raw);
    }
    if Accepts(s, key) {
      var raw :| Configured(s, raw) && IsCore(key, raw);
      StripIsCore(key, raw);
      assert raw in Candidates(s);
    }
  }

  method BuildKeys(s: Settings) returns (keys: set<string>)
    ensures keys == KeysOf(s)
    ensures forall key :: key in keys <==> Accepts(s, key)
  {
    keys := {};
    var candidates := Candidates(s);
    for i := 0 to |candidates|
      invariant keys == set k | k in candidates[..i] && Strip(k) != "" :: Strip(k)
    {
      assert candidates[..i + 1] == candidates[..i] + [candidates[i]];
      if candidates[i] != "" && Strip(candidates[i]) != "" {
        keys := keys + {Strip(candidates[i])};
      }
    }
    assert candidates[..|candidates|] == candidates;
    forall key ensures key in keys <==> Accepts(s, key) {
      AcceptedIff(s, key);
    }
  }

  // ---- Deciding on one snapshot --------------------------------------------------------------

  datatype Decision = Disabled | Accepted(key: string) | MissingKey | NoKeysConfigured | InvalidKey

  /** The decision on a request that carries `header`, empty when the header is absent. */
  function Decide(s: Settings, keys: set<string>, header: string): Decision {
    if !s.enabled then Disabled
    else if header == "" then MissingKey
    else if keys == {} then NoKeysConfigured
    else if header !in keys then InvalidKey
    else Accepted(header)
  }

  // ---- The refresh protocol --------------------------------------------------------------------

  /**
   * Version numbers stand for settings instances: `history[v]` is what version `v`
   * contains. A snapshot pairs a version with the keys that were derived.
   */
  datatype Snapshot = Snapshot(version: nat, keys: set<string>)

  /** Where a thread stands in a snapshot call that began when version `since` was current. */
  datatype Pc =
    | Begun(since: nat)                                     // nothing read yet
    | Looked(since: nat, settings: nat)                     // read get_settings()
    | Blocked(since: nat)                                   // wants the lock
    | Locked(since: nat)                                    // has the lock
    | Reread(since: nat, settings: nat)                     // read get_settings() again
    | Building(since: nat, settings: nat)                   // rebuilding from those settings
    | Built(since: nat, settings: nat, keys: set<string>)   // keys derived, not yet published
    | Published(since: nat)                                 // about to return the snapshot
    | Done(since: nat, result: Snapshot)

  datatype State = State(
    history: seq<Settings>,
    snapshot: Snapshot,
    holder: Option<nat>,
    threads: map<nat, Pc>)

  datatype Event =
    | Reload(settings: Settings)
    | Call(thread: nat)
    | Advance(thread: nat)

  function Start(settings: Settings): State {
    State([settings], Snapshot(0, KeysOf(settings)), None, map[])
  }

  function Newest(s: State): nat
    requires s.history != []
  {
    |s.history| - 1
  }

  function To(s: State, t: nat, pc: Pc): State {
    s.(threads := s.threads[t := pc])
  }

  /** One atomic step of a thread inside the call. */
  function Run(s: State, t: nat): State
    requires s.history != [] && t in s.threads
  {
    match s.threads[t]
    case Begun(since) => To(s, t, Looked(since, Newest(s)))
    case Looked(since, settings) =>
      To(s, t, if s.snapshot.version == settings then Done(since, s.snapshot) else Blocked(since))
    case Blocked(since) =>
      if s.holder.None? then To(s, t, Locked(since)).(holder := Some(t)) else s
    case Locked(since) => To(s, t, Reread(since, Newest(s)))
    case Reread(since, settings) =>
      To(s, t, if s.snapshot.version != settings then Building(since, settings) else Published(since))
    case Building(since, settings) =>
      if settings < |s.history| then To(s, t, Built(since, settings, KeysOf(s.history[settings]))) else s
    case Built(since, settings, keys) => To(s, t, Published(since)).(snapshot := Snapshot(settings, keys))
    case Published(since) => To(s, t, Done(since, s.snapshot)).(holder := None)
    case Done(_, _) => s
  }

  function Step(s: State, e: Event): State
    requires s.history != []
  {
    match e
    case Reload(settings) => s.(history := s.history + [settings])
    case Call(t) => if t in s.threads && !s.threads[t].Done? then s else To(s, t, Begun(Newest(s)))
    case Advance(t) => if t in s.threads then Run(s, t) else s
  }

  function After(initial: Settings, run: seq<Event>): (s: State)
    ensures s.history != []
  {
    if run == [] then Start(initial) else Step(After(initial, run[..|run| - 1]), run[|run| - 1])
  }

  predicate HoldsLock(pc: Pc) {
    pc.Locked? || pc.Reread? || pc.Building? || pc.Built? || pc.Published?
  }

  /** A snapshot and the settings it names agree. */
  ghost predicate Consistent(s: State, snapshot: Snapshot) {
    snapshot.version < |s.history| && snapshot.keys == KeysOf(s.history[snapshot.version])
  }

  /** What is known about a thread from where it stands. */
  ghost predicate ThreadOk(s: State, t: nat)
    requires t in s.threads
  {
    var pc := s.threads[t];
    && pc.since < |s.history|
    && (HoldsLock(pc) <==> s.holder == Some(t))
    && match pc
       case Looked(since, settings) => since <= settings < |s.history|
       case Reread(since, settings) => since <= settings < |s.history| && s.snapshot.version <= settings
       case Building(since, settings) => since <= settings < |s.history| && s.snapshot.version <= settings
       case Built(since, settings, keys) =>
         since <= settings && s.snapshot.version <= settings && Consistent(s, Snapshot(settings, keys))
       case Published(since) => since <= s.snapshot.version
       case Done(since, result) => since <= result.version && Consistent(s, result)
       case _ => true
  }

  ghost predicate Invariant(s: State) {
    && Consistent(s, s.snapshot)
    && (forall t :: t in s.threads ==> ThreadOk(s, t))
    && (s.holder.Some? ==> s.holder.value in s.threads)
  }

  lemma RunKeeps(s: State, t: nat)
    requires Invariant(s) && t in s.threads
    ensures Invariant(Run(s, t)) && s.snapshot.version <= Run(s, t).snapshot.version
  {
  }

  lemma StepKeeps(s: State, e: Event)
    requires Invariant(s)
    ensures Invariant(Step(s, e)) && s.snapshot.version <= Step(s, e).snapshot.version
  {
    if e.Advance? && e.thread in s.threads {
      RunKeeps(s, e.thread);
    }
  }

  lemma {:induction false} AfterKeeps(initial: Settings, run: seq<Event>)
    ensures Invariant(After(initial, run))
  {
    if run != [] {
      AfterKeeps(initial, run[..|run| - 1]);
      StepKeeps(After(initial, run[..|run| - 1]), run[|run| - 1]);
    }
  }

  /**
   * A returned snapshot is at least as new as the settings that were current when the call began, and its keys
   * are theirs.
   */
  lemma SnapshotIsFresh(initial: Settings, run: seq<Event>, t: nat)
    requires var s := After(initial, run); t in s.threads && s.threads[t].Done?
    ensures var s := After(initial, run); var pc := s.threads[t];
      && pc.since <= pc.result.version < |s.history|
      && pc.result.keys == KeysOf(s.history[pc.result.version])
  {
    AfterKeeps(initial, run);
  }

  /** Published versions never go back: a rotated key is not reinstated by a slow thread. */
  lemma {:induction false} VersionsNeverGoBack(initial: Settings, run: seq<Event>, n: nat)
    requires n <= |run|
    ensures After(initial, run[..n]).snapshot.version <= After(initial, run).snapshot.version
    decreases |run|
  {
    if n < |run| {
      var front := run[..|run| - 1];
      VersionsNeverGoBack(initial, front, n);
      assert front[..n] == run[..n];
      AfterKeeps(initial, front);
      StepKeeps(After(initial, front), run[|run| - 1]);
    } else {
      assert run[..n] == run;
    }
  }

  /** At most one thread is between acquiring and releasing the lock. */
  lemma LockExcludes(initial: Settings, run: seq<Event>, t: nat, u: nat)
    requires var s := After(initial, run);
      t in s.threads && u in s.threads && HoldsLock(s.threads[t]) && HoldsLock(s.threads[u])
    ensures t == u
  {
    AfterKeeps(initial, run);
  }

  /** The thread goes on by `n` steps while nobody else does. */
  function Alone(s: State, t: nat, n: nat): (r: State)
    requires s.history != []
    ensures r.history != []
  {
    if n == 0 then s else Step(Alone(s, t, n - 1), Advance(t))
  }

  lemma AfterOne(initial: Settings, run: seq<Event>, e: Event)
    ensures After(initial, run + [e]) == Step(After(initial, run), e)
  {
    assert (run + [e])[..|run|] == run;
  }

  lemma {:induction false} AloneIsARun(initial: Settings, run: seq<Event>, t: nat, n: nat)
    ensures After(initial, run + Steps(t, n)) == Alone(After(initial, run), t, n)
  {
    if n == 0 {
      assert run + Steps(t, 0) == run;
    } else {
      var front := run + Steps(t, n - 1);
      AloneIsARun(initial, run, t, n - 1);
      assert run + Steps(t, n) == front + [Advance(t)];
      AfterOne(initial, front, Advance(t));
    }
  }

  function Steps(t: nat, n: nat): seq<Event> {
    seq(n, i => Advance(t))
  }

  /** A call, and then `more` steps of its thread alone. */
  ghost predicate CallAlone(initial: Settings, run: seq<Event>, t: nat, more: seq<Event>, r: State) {
    && (forall i :: 0 <= i < |more| ==> more[i] == Advance(t))
    && After(initial, run + [Call(t)] + more) == r
  }

  lemma CallIsARun(initial: Settings, run: seq<Event>, t: nat, n: nat, r: State) returns (more: seq<Event>)
    requires Alone(Step(After(initial, run), Call(t)), t, n) == r
    ensures |more| == n && CallAlone(initial, run, t, more, r)
  {
    more := Steps(t, n);
    AloneIsARun(initial, run + [Call(t)], t, n);
    AfterOne(initial, run, Call(t));
  }

  /** The state of `s` but for one thread, the lock and the snapshot. */
  function At(s: State, t: nat, pc: Pc, holder: Option<nat>, snapshot: Snapshot): State {
    s.(threads := s.threads[t := pc], holder := holder, snapshot := snapshot)
  }

  lemma OneStepOn(s: State, t: nat, pc: Pc, holder: Option<nat>, snapshot: Snapshot, n: nat, begun: State)
    requires begun.history != [] && s.history != [] && Alone(begun, t, n) == At(s, t, pc, holder, snapshot)
    ensures var r := Run(At(s, t, pc, holder, snapshot), t);
      && Alone(begun, t, n + 1) == r
      && t in r.threads && r == At(s, t, r.threads[t], r.holder, r.snapshot)
  {
    var r := Run(At(s, t, pc, holder, snapshot), t);
    assert r.threads == s.threads[t := r.threads[t]];
  }

  lemma CallBegins(s: State, t: nat)
    requires s.history != [] && (t in s.threads ==> s.threads[t].Done?)
    ensures Step(s, Call(t)) == At(s, t, Begun(|s.history| - 1), s.holder, s.snapshot)
  {
  }

  lemma LooksAndReturns(s: State, t: nat, v: nat)
    requires s.history != [] && v == |s.history| - 1 && s.snapshot.version == v
    ensures Alone(At(s, t, Begun(v), s.holder, s.snapshot), t, 2) == At(s, t, Done(v, s.snapshot), s.holder, s.snapshot)
  {
    var begun := At(s, t, Begun(v), s.holder, s.snapshot);
    OneStepOn(s, t, Begun(v), s.holder, s.snapshot, 0, begun);
    OneStepOn(s, t, Looked(v, v), s.holder, s.snapshot, 1, begun);
  }

  /** A call that finds the snapshot up to date returns it at once. */
  lemma CallReturnsCurrentSnapshot(initial: Settings, run: seq<Event>, t: nat) returns (more: seq<Event>)
    requires var s := After(initial, run);
      (t in s.threads ==> s.threads[t].Done?) && s.snapshot.version == |s.history| - 1
    ensures var s := After(initial, run);
      && |more| == 2
      && CallAlone(initial, run, t, more, At(s, t, Done(|s.history| - 1, s.snapshot), s.holder, s.snapshot))
  {
    var s := After(initial, run);
    CallBegins(s, t);
    LooksAndReturns(s, t, |s.history| - 1);
    more := CallIsARun(initial, run, t, 2, At(s, t, Done(|s.history| - 1, s.snapshot), s.holder, s.snapshot));
  }

  lemma TakesTheLock(s: State, t: nat, v: nat)
    requires s.history != [] && v == |s.history| - 1 && s.holder == None && s.snapshot.version != v
    ensures var begun := At(s, t, Begun(v), None, s.snapshot);
      Alone(begun, t, 4) == At(s, t, Reread(v, v), Some(t), s.snapshot)
  {
    var begun := At(s, t, Begun(v), None, s.snapshot);
    OneStepOn(s, t, Begun(v), None, s.snapshot, 0, begun);
    OneStepOn(s, t, Looked(v, v), None, s.snapshot, 1, begun);
    OneStepOn(s, t, Blocked(v), None, s.snapshot, 2, begun);
    OneStepOn(s, t, Locked(v), Some(t), s.snapshot, 3, begun);
  }

  lemma RebuildsAndLetsGo(s: State, t: nat, v: nat, begun: State)
    requires s.history != [] && begun.history != [] && v == |s.history| - 1 && s.snapshot.version != v
    requires Alone(begun, t, 4) == At(s, t, Reread(v, v), Some(t), s.snapshot)
    ensures var renewed := Snapshot(v, KeysOf(s.history[v]));
      Alone(begun, t, 8) == At(s, t, Done(v, renewed), None, renewed)
  {
    var keys := KeysOf(s.history[v]);
    OneStepOn(s, t, Reread(v, v), Some(t), s.snapshot, 4, begun);
    OneStepOn(s, t, Building(v, v), Some(t), s.snapshot, 5, begun);
    OneStepOn(s, t, Built(v, v, keys), Some(t), s.snapshot, 6, begun);
    OneStepOn(s, t, Published(v), Some(t), Snapshot(v, keys), 7, begun);
  }

  lemma Refreshes(s: State, t: nat, v: nat, n: nat)
    requires s.history != [] && (t in s.threads ==> s.threads[t].Done?) && s.holder == None && n == 8
    requires v == |s.history| - 1 && s.snapshot.version != v
    ensures var renewed := Snapshot(v, KeysOf(s.history[v]));
      Alone(Step(s, Call(t)), t, n) == At(s, t, Done(v, renewed), None, renewed)
  {
    CallBegins(s, t);
    TakesTheLock(s, t, v);
    RebuildsAndLetsGo(s, t, v, Step(s, Call(t)));
  }

  /**
   * A call that finds it out of date, and the lock free, returns the keys of the newest settings after eight
   * steps, has published them, and has let go of the lock.
   */
  lemma CallRefreshes(initial: Settings, run: seq<Event>, t: nat) returns (more: seq<Event>)
    requires var s := After(initial, run);
      (t in s.threads ==> s.threads[t].Done?) && s.holder == None && s.snapshot.version != |s.history| - 1
    ensures var s := After(initial, run);
      var v := |s.history| - 1;
      var renewed := Snapshot(v, KeysOf(s.history[v]));
      |more| == 8 && CallAlone(initial, run, t, more, At(s, t, Done(v, renewed), None, renewed))
  {
    var s := After(initial, run);
    var v := |s.history| - 1;
    var renewed := Snapshot(v, KeysOf(s.history[v]));
    Refreshes(s, t, v, 8);
    more := CallIsARun(initial, run, t, 8, At(s, t, Done(v, renewed), None, renewed));
  }

  /** A version has a key that is not blank. */
  ghost predicate HasKeys(s: Settings) {
    exists key :: Accepts(s, key)
  }

  /** What a request is told, by the settings of one version and the header alone. */
  lemma DecidedBySettings(s: Settings, header: string)
    ensures var d := Decide(s, KeysOf(s), header);
      && (d == Disabled <==> !s.enabled)
      && (d == MissingKey <==> s.enabled && header == "")
      && (d == NoKeysConfigured <==> s.enabled && header != "" && !HasKeys(s))
      && (d == Accepted(header) <==> s.enabled && Accepts(s, header))
      && (d.Accepted? ==> d.key == header)
  {
    AcceptedIff(s, header);
    forall key ensures key in KeysOf(s) <==> Accepts(s, key) {
      AcceptedIff(s, key);
    }
    if KeysOf(s) != {} {
      var key :| key in KeysOf(s);
      assert Accepts(s, key);
    }
  }

  /**
   * No revoked credential, and no configured one refused: a request decided on a returned snapshot is accepted
   * exactly when its header is a configured key of a settings version no older than the one current when the
   * call began, under that version's own mode.
   */
  lemma DecisionUsesOneVersion(initial: Settings, run: seq<Event>, t: nat, header: string)
    requires var s := After(initial, run); t in s.threads && s.threads[t].Done?
    ensures var s := After(initial, run); var pc := s.threads[t]; var v := pc.result.version;
      && pc.since <= v < |s.history|
      && var d := Decide(s.history[v], pc.result.keys, header);
         && (d.Disabled? <==> !s.history[v].enabled)
         && (d.Accepted? <==> s.history[v].enabled && Accepts(s.history[v], header))
  {
    SnapshotIsFresh(initial, run, t);
    var s := After(initial, run);
    DecidedBySettings(s.history[s.threads[t].result.version], header);
  }
}

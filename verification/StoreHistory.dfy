/**
 * The record store over whole histories: what a reader and a lister find, told by the writes and
 * deletions alone. Reading and listing also remove what has expired; here that is shown to be invisible.
 */
module StoreHistory {
  import opened Prelude
  import opened OrderedDict
  import opened RecordStore

  datatype Op<D> =
    | Write(owner: string, id: string, data: D)
    | Erase(owner: string, id: string)
    | Read(owner: string, id: string)
    | List(owner: string)

  datatype Event<D> = Event(op: Op<D>, at: real)

  type Run<D> = seq<Event<D>>

  /** What the store's methods make of its dictionary. */
  function Do<D>(slots: Slots<D>, namespace: string, ttl: real, e: Event<D>): Slots<D> {
    match e.op
    case Write(owner, id, data) => AfterPut(slots, namespace, owner, id, data, e.at, ttl)
    case Erase(owner, id) => Drop(slots, Key(namespace, owner, id))
    case Read(owner, id) => AfterGet(slots, Key(namespace, owner, id), e.at)
    case List(_) => Swept(slots, e.at)
  }

  function After<D>(namespace: string, ttl: real, run: Run<D>): Slots<D> {
    if run == [] then [] else Do(After(namespace, ttl, run[..|run| - 1]), namespace, ttl, run[|run| - 1])
  }

  /** The clock does not run backwards, and no owner has a colon. */
  ghost predicate Proper<D>(run: Run<D>, now: real) {
    && (forall i :: 0 <= i < |run| ==> ColonFree(run[i].op.owner) && run[i].at <= now)
    && (forall i, j :: 0 <= i <= j < |run| ==> run[i].at <= run[j].at)
  }

  // ---- By the events alone --------------------------------------------------------------------

  /** Which event has written the record, unless it has been erased since. */
  function LastWrite<D>(run: Run<D>, owner: string, id: string): (i: Option<nat>)
    ensures i.Some? ==> i.value < |run| && run[i.value].op.Write?
  {
    if run == [] then None
    else
      var n := |run| - 1;
      match run[n].op
      case Write(o, d, _) => if o == owner && d == id then Some(n) else LastWrite(run[..n], owner, id)
      case Erase(o, d) => if o == owner && d == id then None else LastWrite(run[..n], owner, id)
      case _ => LastWrite(run[..n], owner, id)
  }

  /** When the record that event `i` writes was created: as long as each write met a live record, with the first. */
  function CreatedAt<D>(run: Run<D>, ttl: real, i: nat): real
    requires i < |run| && run[i].op.Write?
  {
    var earlier := LastWrite(run[..i], run[i].op.owner, run[i].op.id);
    if earlier.Some? && run[i].at <= run[earlier.value].at + ttl then CreatedAt(run, ttl, earlier.value)
    else run[i].at
  }

  /** What must be there at `now`: the last write, for one lifetime. */
  function Expected<D>(run: Run<D>, ttl: real, owner: string, id: string, now: real): Option<Record<D>> {
    match LastWrite(run, owner, id)
    case None => None
    case Some(i) =>
      if now <= run[i].at + ttl then Some(Record(id, owner, run[i].op.data, CreatedAt(run, ttl, i), run[i].at))
      else None
  }

  predicate Concerns<D>(op: Op<D>, owner: string, id: string) {
    (op.Write? || op.Erase?) && op.owner == owner && op.id == id
  }

  /** Event `i` writes the record, and no later one writes or erases it. */
  ghost predicate WritesLast<D>(run: Run<D>, i: nat, owner: string, id: string) {
    && i < |run| && run[i].op.Write? && Concerns(run[i].op, owner, id)
    && forall j :: i < j < |run| ==> !Concerns(run[j].op, owner, id)
  }

  lemma {:induction false} LastWriteIff<D>(run: Run<D>, owner: string, id: string, i: nat)
    ensures LastWrite(run, owner, id) == Some(i) <==> WritesLast(run, i, owner, id)
  {
    if run != [] {
      var front := run[..|run| - 1];
      LastWriteIff(front, owner, id, i);
      assert forall j :: 0 <= j < |front| ==> front[j] == run[j];
      if WritesLast(run, i, owner, id) && i < |front| {
        assert WritesLast(front, i, owner, id);
      }
    }
  }

  lemma {:induction false} CreatedAtStays<D>(run: Run<D>, longer: Run<D>, ttl: real, i: nat)
    requires i < |run| && run[i].op.Write? && run <= longer
    ensures CreatedAt(longer, ttl, i) == CreatedAt(run, ttl, i)
    decreases i
  {
    assert longer[..i] == run[..i] && longer[i] == run[i];
    var earlier := LastWrite(run[..i], run[i].op.owner, run[i].op.id);
    if earlier.Some? {
      assert run[..i][earlier.value] == run[earlier.value];
      CreatedAtStays(run, longer, ttl, earlier.value);
    }
  }

  // ---- The store shows it -------------------------------------------------------------------

  lemma {:induction false} FindAfterSweep<D>(slots: Slots<D>, now: real, key: string)
    requires Distinct(slots)
    ensures Find(Swept(slots, now), key) ==
      if Find(slots, key).Some? && now <= Find(slots, key).value.expires then Find(slots, key) else None
  {
    if slots != [] {
      FindAfterSweep(slots[1..], now, key);
      if slots[0].0 == key {
        Absent(slots[1..], key);
      } else if now <= slots[0].1.expires {
        assert Swept(slots, now)[1..] == Swept(slots[1..], now);
      }
    }
  }

  lemma {:induction false} StaysDistinct<D>(namespace: string, ttl: real, run: Run<D>)
    ensures Distinct(After(namespace, ttl, run))
  {
    if run != [] {
      var before, e := After(namespace, ttl, run[..|run| - 1]), run[|run| - 1];
      StaysDistinct(namespace, ttl, run[..|run| - 1]);
      match e.op
      case Write(owner, id, data) =>
        var key := Key(namespace, owner, id);
        DropDistinct(before, key);
        PutDistinct(AfterGet(before, key, e.at), key, Slot(e.at + ttl, Written(before, key, owner, id, data, e.at)));
      case Erase(owner, id) => DropDistinct(before, Key(namespace, owner, id));
      case Read(owner, id) => DropDistinct(before, Key(namespace, owner, id));
      case List(_) => SweptDistinct(before, e.at);
    }
  }

  /** Reading one key takes nothing unexpired from any other, nor from itself. */
  lemma ReadIsInvisible<D>(slots: Slots<D>, key: string, at: real, other: string, now: real)
    requires Distinct(slots) && at <= now
    ensures Visible(AfterGet(slots, key, at), other, now) == Visible(slots, other, now)
  {
    FindAfterDrop(slots, key, other);
  }

  lemma SweepIsInvisible<D>(slots: Slots<D>, at: real, key: string, now: real)
    requires Distinct(slots) && at <= now
    ensures Visible(Swept(slots, at), key, now) == Visible(slots, key, now)
  {
    FindAfterSweep(slots, at, key);
  }

  lemma ExpectedStays<D>(run: Run<D>, e: Event<D>, ttl: real, owner: string, id: string, now: real)
    requires !Concerns(e.op, owner, id)
    ensures Expected(run + [e], ttl, owner, id, now) == Expected(run, ttl, owner, id, now)
  {
    assert (run + [e])[..|run|] == run;
    var i := LastWrite(run, owner, id);
    assert LastWrite(run + [e], owner, id) == i;
    if i.Some? {
      CreatedAtStays(run, run + [e], ttl, i.value);
    }
  }

  /** An event on other records shows nothing of this one. */
  lemma OthersLeaveItVisible<D>(slots: Slots<D>, namespace: string, ttl: real, e: Event<D>,
                                owner: string, id: string, now: real)
    requires Distinct(slots) && ColonFree(owner) && ColonFree(e.op.owner) && e.at <= now
    requires !Concerns(e.op, owner, id)
    ensures var key := Key(namespace, owner, id);
      Visible(Do(slots, namespace, ttl, e), key, now) == Visible(slots, key, now)
  {
    var key := Key(namespace, owner, id);
    match e.op
    case Write(o, d, data) =>
      var other := Key(namespace, o, d);
      KeysAreInjective(namespace, o, d, owner, id);
      ReadIsInvisible(slots, other, e.at, key, now);
      FindAfterPut(AfterGet(slots, other, e.at), other, Slot(e.at + ttl, Written(slots, other, o, d, data, e.at)), key);
    case Erase(o, d) =>
      KeysAreInjective(namespace, o, d, owner, id);
      FindAfterDrop(slots, Key(namespace, o, d), key);
    case Read(o, d) => ReadIsInvisible(slots, Key(namespace, o, d), e.at, key, now);
    case List(_) => SweepIsInvisible(slots, e.at, key, now);
  }

  lemma WriteShows<D>(slots: Slots<D>, namespace: string, ttl: real, e: Event<D>, run: Run<D>, now: real)
    requires e.op.Write?
    requires Visible(slots, Key(namespace, e.op.owner, e.op.id), e.at) == Expected(run, ttl, e.op.owner, e.op.id, e.at)
    ensures Visible(Do(slots, namespace, ttl, e), Key(namespace, e.op.owner, e.op.id), now)
         == Expected(run + [e], ttl, e.op.owner, e.op.id, now)
  {
    var key := Key(namespace, e.op.owner, e.op.id);
    var slot := Slot(e.at + ttl, Written(slots, key, e.op.owner, e.op.id, e.op.data, e.at));
    FindAfterPut(AfterGet(slots, key, e.at), key, slot, key);
    var longer := run + [e];
    assert longer[..|run|] == run && longer[|run|] == e;
    var earlier := LastWrite(run, e.op.owner, e.op.id);
    if earlier.Some? {
      CreatedAtStays(run, longer, ttl, earlier.value);
    }
  }

  /**
   * Reading tells exactly what was written: the last write of the record, for one lifetime, unless it has been
   * erased since; and the creation time of the first of the writes that each met the record alive. No read,
   * listing, or operation on other owners or ids shows.
   */
  lemma {:induction false} ReadsWhatWasWritten<D>(namespace: string, ttl: real, run: Run<D>,
                                                  owner: string, id: string, now: real)
    requires Proper(run, now) && ColonFree(owner)
    ensures Visible(After(namespace, ttl, run), Key(namespace, owner, id), now) == Expected(run, ttl, owner, id, now)
    decreases |run|
  {
    if run != [] {
      var front, e := run[..|run| - 1], run[|run| - 1];
      assert run == front + [e];
      var before := After(namespace, ttl, front);
      StaysDistinct(namespace, ttl, front);
      ReadsWhatWasWritten(namespace, ttl, front, owner, id, now);
      ReadsWhatWasWritten(namespace, ttl, front, owner, id, e.at);
      if !Concerns(e.op, owner, id) {
        ExpectedStays(front, e, ttl, owner, id, now);
        OthersLeaveItVisible(before, namespace, ttl, e, owner, id, now);
      } else if e.op.Write? {
        WriteShows(before, namespace, ttl, e, front, now);
      } else {
        FindAfterDrop(before, Key(namespace, owner, id), Key(namespace, owner, id));
      }
    }
  }

  /** So a reader finds a record exactly when a write of it is the last event on it and its lifetime lasts. */
  lemma FoundIff<D>(namespace: string, ttl: real, run: Run<D>, owner: string, id: string, now: real, i: nat)
    requires Proper(run, now) && ColonFree(owner) && WritesLast(run, i, owner, id)
    ensures var found := Visible(After(namespace, ttl, run), Key(namespace, owner, id), now);
      && (found.Some? <==> now <= run[i].at + ttl)
      && (found.Some? ==>
            found.value == Record(id, owner, run[i].op.data, found.value.createdAt, run[i].at)
            && found.value.createdAt <= run[i].at)
  {
    ReadsWhatWasWritten(namespace, ttl, run, owner, id, now);
    LastWriteIff(run, owner, id, i);
    CreatedBefore(run, ttl, i);
  }

  lemma {:induction false} CreatedBefore<D>(run: Run<D>, ttl: real, i: nat)
    requires i < |run| && run[i].op.Write? && forall j, k :: 0 <= j <= k < |run| ==> run[j].at <= run[k].at
    ensures CreatedAt(run, ttl, i) <= run[i].at
    decreases i
  {
    var earlier := LastWrite(run[..i], run[i].op.owner, run[i].op.id);
    if earlier.Some? {
      assert run[..i][earlier.value] == run[earlier.value];
      CreatedBefore(run, ttl, earlier.value);
    }
  }

  // ---- Listings over whole histories ------------------------------------------------------------

  /** What an event makes of the map from (owner, id) that the dictionary stands for. */
  function TableStep<D>(m: Table<D>, ttl: real, e: Event<D>): Table<D> {
    match e.op
    case Write(owner, id, data) => PutInto(m, owner, id, data, e.at, ttl)
    case Erase(owner, id) => m - {(owner, id)}
    case Read(owner, id) => AfterRead(m, owner, id, e.at)
    case List(_) => LiveOnly(m, e.at)
  }

  function TableAfter<D>(ttl: real, run: Run<D>): Table<D> {
    if run == [] then map[] else TableStep(TableAfter(ttl, run[..|run| - 1]), ttl, run[|run| - 1])
  }

  lemma WriteIsRepresented<D>(slots: Slots<D>, namespace: string, m: Table<D>, ttl: real, e: Event<D>)
    requires Represents(slots, namespace, m) && ColonFree(e.op.owner) && e.op.Write?
    ensures Represents(Do(slots, namespace, ttl, e), namespace, TableStep(m, ttl, e))
  {
    PutRefines(slots, namespace, m, e.op.owner, e.op.id, e.op.data, e.at, ttl);
  }

  lemma StepIsRepresented<D>(slots: Slots<D>, namespace: string, m: Table<D>, ttl: real, e: Event<D>)
    requires Represents(slots, namespace, m) && ColonFree(e.op.owner)
    ensures Represents(Do(slots, namespace, ttl, e), namespace, TableStep(m, ttl, e))
  {
    match e.op
    case Write(_, _, _) => WriteIsRepresented(slots, namespace, m, ttl, e);
    case Erase(owner, id) => DeleteRefines(slots, namespace, m, owner, id);
    case Read(owner, id) => ReadRefines(slots, namespace, m, owner, id, e.at);
    case List(_) => SweepRefines(slots, namespace, m, e.at);
  }

  lemma {:induction false} HistoryIsRepresented<D>(namespace: string, ttl: real, run: Run<D>)
    requires forall i :: 0 <= i < |run| ==> ColonFree(run[i].op.owner)
    ensures Represents(After(namespace, ttl, run), namespace, TableAfter(ttl, run))
    decreases |run|
  {
    if run != [] {
      var front, e := run[..|run| - 1], run[|run| - 1];
      HistoryIsRepresented(namespace, ttl, front);
      StepIsRepresented(After(namespace, ttl, front), namespace, TableAfter(ttl, front), ttl, e);
    }
  }

  /** A listing shows a record exactly when it is the owner's, passes the filter and is what was written last. */
  lemma ListsWhatWasWritten<D>(namespace: string, ttl: real, run: Run<D>, owner: string,
                               keep: Record<D> -> bool, order: Order<D>, now: real, r: Record<D>)
    requires Proper(run, now) && ColonFree(owner)
    ensures r in Listed(After(namespace, ttl, run), OwnerPrefix(namespace, owner), keep, order, now) <==>
      keep(r) && r.owner == owner && Expected(run, ttl, owner, r.id, now) == Some(r)
  {
    HistoryIsRepresented(namespace, ttl, run);
    ListAgreesWithGet(After(namespace, ttl, run), namespace, TableAfter(ttl, run), owner, keep, order, now, r);
    ReadsWhatWasWritten(namespace, ttl, run, owner, r.id, now);
  }
}

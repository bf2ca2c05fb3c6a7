/** The per-server locks of the gRPC handlers: a table from uuid to mutex, filled on demand, from which delete removes
    the entry while it holds the guard. */
module Locks {
  import opened Runs

  class Mutex {
    constructor () {}
  }

  /** The table of the gRPC service. `made` and `table` are the numbering of its mutexes that the runs below use: the
      i-th mutex ever made has number i. */
  class ServerLocks {
    var locks: map<string, Mutex>
    ghost var made: seq<Mutex>
    ghost var table: Table

    ghost predicate Valid()
      reads this
    {
      && |made| == |table.made|
      && (forall i, j :: 0 <= i < j < |made| ==> made[i] != made[j])
      && locks.Keys == table.entries.Keys
      && forall u :: u in locks ==> table.entries[u] < |made| && locks[u] == made[table.entries[u]]
    }

    constructor ()
      ensures Valid() && locks == map[] && table == EMPTY.table
    {
      locks, made, table := map[], [], EMPTY.table;
    }

    /** entry(uuid).or_insert_with(...).clone() */
    method GetLock(uuid: string) returns (m: Mutex)
      requires Valid()
      modifies this
      ensures Valid() && old(made) <= made && table == WithLock(old(table), uuid)
      ensures table.entries[uuid] < |made| && m == made[table.entries[uuid]]
      ensures uuid in old(locks) ==> locks == old(locks)
      ensures uuid !in old(locks) ==> fresh(m) && locks == old(locks)[uuid := m]
    {
      if uuid !in locks {
        var mutex := new Mutex();
        table := WithLock(table, uuid);
        locks, made := locks[uuid := mutex], made + [mutex];
      }
      m := locks[uuid];
    }

    method Remove(uuid: string)
      requires Valid()
      modifies this
      ensures Valid() && locks == old(locks) - {uuid} && made == old(made) && table == DropEntry(old(table), uuid)
    {
      table := DropEntry(table, uuid);
      locks := locks - {uuid};
    }
  }

  // ------------------------------------------------------------------------------------------------
  // Handlers of all requests, interleaved at their awaits.

  type Id = nat

  /** The mutex made for `uuid` after `epoch` removals of its entry. Mutexes are numbered as they are made. */
  datatype Origin = Origin(uuid: string, epoch: nat)

  /** A handler waits for the mutex it fetched, or is inside its guarded section. */
  datatype Handler = Handler(uuid: string, epoch: nat, mutex: nat, inside: bool)

  datatype Table = Table(entries: map<string, nat>, made: seq<Origin>, removals: map<string, nat>)

  datatype State = State(table: Table, handlers: map<Id, Handler>)

  datatype Event =
    | Fetch(id: Id, uuid: string)
    | Enter(id: Id)
    | RemoveEntry(id: Id)
    | Leave(id: Id)

  const EMPTY := State(Table(map[], [], map[]), map[])

  /** How often the entry of a uuid has been removed. */
  function Epoch(t: Table, uuid: string): nat {
    if uuid in t.removals then t.removals[uuid] else 0
  }

  function WithLock(t: Table, uuid: string): (r: Table)
    ensures uuid in r.entries
  {
    if uuid in t.entries then t
    else t.(entries := t.entries[uuid := |t.made|], made := t.made + [Origin(uuid, Epoch(t, uuid))])
  }

  function DropEntry(t: Table, uuid: string): Table {
    if uuid !in t.entries then t
    else t.(entries := t.entries - {uuid}, removals := t.removals[uuid := Epoch(t, uuid) + 1])
  }

  predicate Free(handlers: map<Id, Handler>, mutex: nat) {
    forall h :: h in handlers && handlers[h].inside ==> handlers[h].mutex != mutex
  }

  /** Fetch is get_lock; Enter is the await on lock(); RemoveEntry is what delete does under its guard; Leave drops
      the guard, or abandons the wait. */
  function Apply(s: State, e: Event): State {
    match e
    case Fetch(id, uuid) =>
      if id in s.handlers then s
      else
        var t := WithLock(s.table, uuid);
        State(t, s.handlers[id := Handler(uuid, Epoch(t, uuid), t.entries[uuid], false)])
    case Enter(id) =>
      if id !in s.handlers || s.handlers[id].inside || !Free(s.handlers, s.handlers[id].mutex) then s
      else s.(handlers := s.handlers[id := s.handlers[id].(inside := true)])
    case RemoveEntry(id) =>
      if id !in s.handlers || !s.handlers[id].inside then s
      else s.(table := DropEntry(s.table, s.handlers[id].uuid))
    case Leave(id) => s.(handlers := s.handlers - {id})
  }

  function Run(s: State, events: seq<Event>): State {
    Fold(Apply, s, events)
  }

  ghost predicate MadeOnce(t: Table) {
    && (forall i, j :: 0 <= i < j < |t.made| ==> t.made[i] != t.made[j])
    && (forall i :: 0 <= i < |t.made| ==> t.made[i].epoch <= Epoch(t, t.made[i].uuid))
  }

  ghost predicate CurrentIsListed(t: Table) {
    forall i :: 0 <= i < |t.made| && t.made[i].epoch == Epoch(t, t.made[i].uuid) ==>
      t.made[i].uuid in t.entries && t.entries[t.made[i].uuid] == i
  }

  ghost predicate ListedIsCurrent(t: Table) {
    forall u :: u in t.entries ==> t.entries[u] < |t.made| && t.made[t.entries[u]] == Origin(u, Epoch(t, u))
  }

  /** At most one mutex was made per uuid and epoch, and the one of the current epoch is in the table. */
  ghost predicate OneMutexPerEpoch(t: Table) {
    MadeOnce(t) && CurrentIsListed(t) && ListedIsCurrent(t)
  }

  ghost predicate HandlersHold(made: seq<Origin>, handlers: map<Id, Handler>) {
    forall h :: h in handlers ==>
      handlers[h].mutex < |made| && made[handlers[h].mutex] == Origin(handlers[h].uuid, handlers[h].epoch)
  }

  ghost predicate Exclusive(handlers: map<Id, Handler>) {
    forall g, h :: g in handlers && h in handlers && g != h && handlers[g].inside && handlers[h].inside ==>
      handlers[g].mutex != handlers[h].mutex
  }

  ghost predicate Inv(s: State) {
    OneMutexPerEpoch(s.table) && HandlersHold(s.table.made, s.handlers) && Exclusive(s.handlers)
  }

  lemma NewMutexIsMadeOnce(t: Table, uuid: string)
    requires OneMutexPerEpoch(t) && uuid !in t.entries
    ensures MadeOnce(WithLock(t, uuid))
  {
    var t' := WithLock(t, uuid);
    assert forall i :: 0 <= i < |t.made| ==> t'.made[i] == t.made[i] && t'.made[i] != Origin(uuid, Epoch(t, uuid));
  }

  lemma NewMutexIsListed(t: Table, uuid: string)
    requires OneMutexPerEpoch(t) && uuid !in t.entries
    ensures CurrentIsListed(WithLock(t, uuid)) && ListedIsCurrent(WithLock(t, uuid))
  {
    var t' := WithLock(t, uuid);
    assert forall i :: 0 <= i < |t.made| ==> t'.made[i] == t.made[i];
    assert t'.made[|t.made|] == Origin(uuid, Epoch(t, uuid));
  }

  lemma WithLockKeepsTable(t: Table, uuid: string)
    requires OneMutexPerEpoch(t)
    ensures OneMutexPerEpoch(WithLock(t, uuid)) && t.made <= WithLock(t, uuid).made
  {
    if uuid !in t.entries {
      NewMutexIsMadeOnce(t, uuid);
      NewMutexIsListed(t, uuid);
    }
  }

  lemma DropEntryKeepsTable(t: Table, uuid: string)
    requires OneMutexPerEpoch(t)
    ensures OneMutexPerEpoch(DropEntry(t, uuid)) && DropEntry(t, uuid).made == t.made
  {
    var t' := DropEntry(t, uuid);
    assert uuid in t.entries ==> forall u :: Epoch(t', u) == if u == uuid then Epoch(t, u) + 1 else Epoch(t, u);
  }

  lemma FetchKeepsInv(s: State, id: Id, uuid: string)
    requires Inv(s)
    ensures Inv(Apply(s, Fetch(id, uuid)))
  {
    WithLockKeepsTable(s.table, uuid);
    assert forall i :: 0 <= i < |s.table.made| ==> WithLock(s.table, uuid).made[i] == s.table.made[i];
  }

  lemma EnterKeepsInv(s: State, id: Id)
    requires Inv(s)
    ensures Inv(Apply(s, Enter(id)))
  {
  }

  lemma ApplyKeepsInv(s: State, e: Event)
    requires Inv(s)
    ensures Inv(Apply(s, e))
  {
    match e
    case Fetch(id, uuid) => FetchKeepsInv(s, id, uuid);
    case Enter(id) => EnterKeepsInv(s, id);
    case RemoveEntry(id) =>
      if id in s.handlers {
        DropEntryKeepsTable(s.table, s.handlers[id].uuid);
      }
    case Leave(id) =>
  }

  lemma {:induction false} RunKeepsInv(s: State, events: seq<Event>)
    requires Inv(s)
    ensures Inv(Run(s, events))
    decreases |events|
  {
    if events != [] {
      ApplyKeepsInv(s, events[0]);
      RunKeepsInv(Apply(s, events[0]), events[1..]);
    }
  }

  /** MAIN RESULT. In every interleaving two handlers of one uuid wait on the same mutex exactly when the entry was
      not removed between their fetches. */
  lemma SameMutexIffSameEpoch(events: seq<Event>, g: Id, h: Id)
    requires var s := Run(EMPTY, events);
      g in s.handlers && h in s.handlers && s.handlers[g].uuid == s.handlers[h].uuid
    ensures var s := Run(EMPTY, events);
      s.handlers[g].mutex == s.handlers[h].mutex <==> s.handlers[g].epoch == s.handlers[h].epoch
  {
    RunKeepsInv(EMPTY, events);
  }

  /** MAIN RESULT. Of the handlers that fetched the lock of a uuid between two removals of its entry, at most one is
      inside its guarded section. */
  lemma OneHandlerInsidePerEpoch(events: seq<Event>, g: Id, h: Id)
    requires var s := Run(EMPTY, events);
      && g in s.handlers && h in s.handlers && s.handlers[g].inside && s.handlers[h].inside
      && s.handlers[g].uuid == s.handlers[h].uuid && s.handlers[g].epoch == s.handlers[h].epoch
    ensures g == h
  {
    RunKeepsInv(EMPTY, events);
  }

  /** A handler that fetched the lock of its uuid since the entry was last removed. */
  ghost predicate IsCurrent(s: State, h: Id) {
    h in s.handlers && s.handlers[h].epoch == Epoch(s.table, s.handlers[h].uuid)
  }

  /** MAIN RESULT. Of the handlers that fetched the lock of a uuid since its entry was last removed, at most one is
      inside its guarded section, and all of them use the mutex that is in the table. */
  lemma OneCurrentHandlerInside(events: seq<Event>, g: Id, h: Id)
    requires var s := Run(EMPTY, events);
      IsCurrent(s, g) && IsCurrent(s, h) && s.handlers[g].uuid == s.handlers[h].uuid
    ensures var s := Run(EMPTY, events);
      && s.handlers[g].uuid in s.table.entries
      && s.handlers[g].mutex == s.table.entries[s.handlers[g].uuid] == s.handlers[h].mutex
      && (s.handlers[g].inside && s.handlers[h].inside ==> g == h)
  {
    RunKeepsInv(EMPTY, events);
  }

  lemma RunTwo(s: State, a: Event, b: Event, rest: seq<Event>)
    ensures Run(s, [a, b] + rest) == Run(Apply(Apply(s, a), b), rest)
  {
    FoldTwo(Apply, s, a, b);
    FoldConcat(Apply, s, [a, b], rest);
  }

  /** A delete (1) is inside, a handler (2) waits for the same mutex, the entry is removed, and a third handler gets a
      new mutex. */
  const BEFORE: seq<Event> := [Fetch(1, "u"), Enter(1)] + ([Fetch(2, "u"), RemoveEntry(1)] + [])
  const AFTER: seq<Event> := [Fetch(3, "u"), Leave(1)] + ([Enter(2), Enter(3)] + [])

  const REMOVED := State(
    Table(map[], [Origin("u", 0)], map["u" := 1]),
    map[1 := Handler("u", 0, 0, true), 2 := Handler("u", 0, 0, false)])

  lemma UpToRemoval()
    ensures Run(EMPTY, BEFORE) == REMOVED
  {
    var s1 := Apply(Apply(EMPTY, Fetch(1, "u")), Enter(1));
    assert s1 == State(Table(map["u" := 0], [Origin("u", 0)], map[]), map[1 := Handler("u", 0, 0, true)]);
    RunTwo(EMPTY, Fetch(1, "u"), Enter(1), [Fetch(2, "u"), RemoveEntry(1)] + []);
    RunTwo(s1, Fetch(2, "u"), RemoveEntry(1), []);
    assert Apply(Apply(s1, Fetch(2, "u")), RemoveEntry(1)) == REMOVED;
  }

  lemma AfterRemoval()
    ensures Run(REMOVED, AFTER).handlers == map[2 := Handler("u", 0, 0, true), 3 := Handler("u", 1, 1, true)]
  {
    var s3 := Apply(Apply(REMOVED, Fetch(3, "u")), Leave(1));
    assert s3.handlers == map[2 := Handler("u", 0, 0, false), 3 := Handler("u", 1, 1, false)];
    RunTwo(REMOVED, Fetch(3, "u"), Leave(1), [Enter(2), Enter(3)] + []);
    RunTwo(s3, Enter(2), Enter(3), []);
    assert Apply(s3, Enter(2)).handlers == map[2 := Handler("u", 0, 0, true), 3 := Handler("u", 1, 1, false)];
    assert Apply(Apply(s3, Enter(2)), Enter(3)).handlers ==
      map[2 := Handler("u", 0, 0, true), 3 := Handler("u", 1, 1, true)];
  }

  // ------------------------------------------------------------------------------------------------
  // Which two handlers of one uuid can be inside together?

  predicate Spares(events: seq<Event>, g: Id, h: Id) {
    forall k :: 0 <= k < |events| ==> events[k] != Leave(g) && events[k] != Leave(h)
  }

  /** A handler that does not leave keeps its uuid, epoch and mutex. */
  lemma {:induction false} StaysItself(s: State, events: seq<Event>, g: Id)
    requires g in s.handlers && Spares(events, g, g)
    ensures g in Run(s, events).handlers
    ensures Run(s, events).handlers[g].(inside := false) == s.handlers[g].(inside := false)
    decreases |events|
  {
    if events != [] {
      StaysItself(Apply(s, events[0]), events[1..], g);
    }
  }

  /** What taking a mutex changes: the holder is gone, g is inside, the other handlers are as they were. */
  ghost predicate Entered(s: State, s': State, g: Id) {
    && g in s.handlers && s'.table == s.table
    && (forall x :: x in s'.handlers ==> x in s.handlers)
    && (forall x :: x in s'.handlers && x != g ==> s'.handlers[x] == s.handlers[x])
    && (forall x :: x in s.handlers && s.handlers[x].mutex != s.handlers[g].mutex ==> x in s'.handlers)
    && g in s'.handlers && s'.handlers[g] == s.handlers[g].(inside := true)
  }

  /** A waiting handler gets in once the holder of its mutex, if there is one, has left. */
  lemma GetsIn(s: State, g: Id, h: Id) returns (events: seq<Event>)
    requires Inv(s) && g in s.handlers && h in s.handlers && s.handlers[g].mutex != s.handlers[h].mutex
    ensures Spares(events, g, h) && Entered(s, Run(s, events), g)
  {
    if s.handlers[g].inside {
      events := [];
    } else if Free(s.handlers, s.handlers[g].mutex) {
      events := [Enter(g)];
      EntersFree(s, g);
      FoldOne(Apply, s, Enter(g));
    } else {
      var x :| x in s.handlers && s.handlers[x].inside && s.handlers[x].mutex == s.handlers[g].mutex;
      var left := Apply(s, Leave(x));
      assert Free(left.handlers, s.handlers[g].mutex);
      EntersFree(left, g);
      events := [Leave(x), Enter(g)];
      FoldTwo(Apply, s, Leave(x), Enter(g));
    }
  }

  lemma EntersFree(s: State, g: Id)
    requires g in s.handlers && !s.handlers[g].inside && Free(s.handlers, s.handlers[g].mutex)
    ensures Apply(s, Enter(g)) == s.(handlers := s.handlers[g := s.handlers[g].(inside := true)])
  {
  }

  ghost predicate BothInside(s: State, g: Id, h: Id) {
    g in s.handlers && h in s.handlers && s.handlers[g].inside && s.handlers[h].inside
  }

  /** Some continuation in which neither leaves has both inside. */
  ghost predicate CanMeet(s: State, g: Id, h: Id) {
    exists more :: Spares(more, g, h) && BothInside(Run(s, more), g, h)
  }

  lemma SparesBoth(xs: seq<Event>, ys: seq<Event>, g: Id, h: Id)
    requires Spares(xs, g, h) && Spares(ys, h, g)
    ensures Spares(xs + ys, g, h)
  {
  }

  lemma BothEntered(s: State, mid: State, end: State, g: Id, h: Id)
    requires Entered(s, mid, g) && Entered(mid, end, h)
    requires h in s.handlers && s.handlers[g].mutex != s.handlers[h].mutex
    ensures BothInside(end, g, h)
  {
  }

  lemma EnteringOneAfterTheOther(s: State, first: seq<Event>, mid: State, second: seq<Event>, g: Id, h: Id)
    requires mid == Run(s, first) && Entered(s, mid, g) && Entered(mid, Run(mid, second), h)
    requires h in s.handlers && s.handlers[g].mutex != s.handlers[h].mutex
    requires Spares(first, g, h) && Spares(second, h, g)
    ensures CanMeet(s, g, h)
  {
    FoldConcat(Apply, s, first, second);
    BothEntered(s, mid, Run(mid, second), g, h);
    SparesBoth(first, second, g, h);
  }

  lemma DifferentMutexesMeet(s: State, g: Id, h: Id)
    requires Inv(s) && g in s.handlers && h in s.handlers && s.handlers[g].mutex != s.handlers[h].mutex
    ensures CanMeet(s, g, h)
  {
    var first := GetsIn(s, g, h);
    RunKeepsInv(s, first);
    var second := GetsIn(Run(s, first), h, g);
    EnteringOneAfterTheOther(s, first, Run(s, first), second, g, h);
  }

  lemma MeetingMeansDifferentEpochs(events: seq<Event>, more: seq<Event>, g: Id, h: Id)
    requires var s := Run(EMPTY, events);
      && g in s.handlers && h in s.handlers && g != h && s.handlers[g].uuid == s.handlers[h].uuid
      && Spares(more, g, h) && BothInside(Run(s, more), g, h)
    ensures var s := Run(EMPTY, events); s.handlers[g].epoch != s.handlers[h].epoch
  {
    var s := Run(EMPTY, events);
    FoldConcat(Apply, EMPTY, events, more);
    StaysItself(s, more, g);
    StaysItself(s, more, h);
    if s.handlers[g].epoch == s.handlers[h].epoch {
      OneHandlerInsidePerEpoch(events + more, g, h);
    }
  }

  /** MAIN RESULT. In every run, two handlers of one uuid can come to be inside together, neither leaving before,
      exactly when the entry was removed between their fetches. */
  lemma CanMeetIff(events: seq<Event>, g: Id, h: Id)
    requires var s := Run(EMPTY, events);
      g in s.handlers && h in s.handlers && g != h && s.handlers[g].uuid == s.handlers[h].uuid
    ensures var s := Run(EMPTY, events);
      CanMeet(s, g, h) <==> s.handlers[g].epoch != s.handlers[h].epoch
  {
    var s := Run(EMPTY, events);
    RunKeepsInv(EMPTY, events);
    if more :| Spares(more, g, h) && BothInside(Run(s, more), g, h) {
      MeetingMeansDifferentEpochs(events, more, g, h);
    }
    if s.handlers[g].epoch != s.handlers[h].epoch {
      SameMutexIffSameEpoch(events, g, h);
      DifferentMutexesMeet(s, g, h);
    }
  }

  /** Without "since its entry was last removed" exclusion fails: a handler that fetched before the removal and one
      that fetched after it are inside together. */
  lemma RemovalLetsTwoIn()
    ensures Run(EMPTY, BEFORE + AFTER).handlers == map[2 := Handler("u", 0, 0, true), 3 := Handler("u", 1, 1, true)]
  {
    FoldConcat(Apply, EMPTY, BEFORE, AFTER);
    UpToRemoval();
    AfterRemoval();
  }
}

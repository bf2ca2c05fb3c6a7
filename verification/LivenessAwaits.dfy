/** Node liveness with its awaits: a handler decides to update the stored status, and the UPDATE lands later, possibly
    after the decisions and updates of other handlers. */
module LivenessAwaits {
  import opened Common
  import opened Runs
  import L = Liveness

  /** UPDATE nodes SET connectionStatus = status WHERE id = id. */
  datatype Write = Write(id: string, status: L.Status)

  datatype State = State(beats: map<string, int>, stored: map<string, L.Status>, pending: multiset<Write>)

  datatype Event =
    | Beat(id: string, seen: L.Status, now: int, at: int)
    | Check(id: string, seen: L.Status, now: int)
    | Land(write: Write, now: int)
    | Restart(now: int)

  function End(e: Event): int { if e.Beat? then e.at else e.now }

  function Decide(s: State, when: bool, w: Write): State {
    if when then s.(pending := s.pending + multiset{w}) else s
  }

  /** A restart of the panel forgets the heartbeats, and the updates that have not landed. */
  function Apply(s: State, e: Event): State {
    match e
    case Beat(id, seen, now, at) =>
      var decided := Decide(s, !L.IsOnline(s.beats, id, now) && seen != L.Connected, Write(id, L.Connected));
      decided.(beats := s.beats[id := at])
    case Check(id, seen, now) =>
      Decide(s, !L.IsOnline(s.beats, id, now) && seen == L.Connected, Write(id, L.Disconnected))
    case Land(w, _) =>
      if w !in s.pending then s
      else
        var stored := if w.id in s.stored then s.stored[w.id := w.status] else s.stored;
        State(s.beats, stored, s.pending - multiset{w})
    case Restart(_) => State(map[], s.stored, multiset{})
  }

  function Run(s: State, events: seq<Event>): State {
    Fold(Apply, s, events)
  }

  /** The same heartbeats, and the statuses of the same rows. */
  ghost predicate Agrees(s: State, l: L.State) {
    && s.beats == l.beats && s.stored.Keys == l.nodes.Keys
    && forall id :: id in s.stored ==> s.stored[id] == l.nodes[id].status
  }

  /** Lands the update that an event decided on, if it decided on one. */
  function LandAtOnce(before: State, after: State, w: Write, now: int): State {
    if after.pending == before.pending then after else Apply(after, Land(w, now))
  }

  lemma LandsAtOnce(s: State, beats: map<string, int>, w: Write, now: int)
    ensures var decided := State(beats, s.stored, s.pending + multiset{w});
      && LandAtOnce(s, decided, w, now).beats == beats && LandAtOnce(s, decided, w, now).pending == s.pending
      && LandAtOnce(s, decided, w, now).stored == if w.id in s.stored then s.stored[w.id := w.status] else s.stored
  {
    assert (s.pending + multiset{w})[w] == s.pending[w] + 1;
    assert s.pending + multiset{w} - multiset{w} == s.pending;
  }

  /** A heartbeat whose update lands at once is the atomic one of Liveness. */
  lemma BeatAtOnceIsAtomic(s: State, l: L.State, id: string, seen: L.Status, version: string, now: int, at: int)
    requires Agrees(s, l)
    ensures var beat := LandAtOnce(s, Apply(s, Beat(id, seen, now, at)), Write(id, L.Connected), now);
      beat.pending == s.pending && Agrees(beat, L.Apply(l, L.Beat(id, seen, version, now, at)))
  {
    LandsAtOnce(s, s.beats[id := at], Write(id, L.Connected), now);
  }

  /** So is a health check. */
  lemma CheckAtOnceIsAtomic(s: State, l: L.State, id: string, seen: L.Status, now: int)
    requires Agrees(s, l)
    ensures var check := LandAtOnce(s, Apply(s, Check(id, seen, now)), Write(id, L.Disconnected), now);
      check.pending == s.pending && Agrees(check, L.Apply(l, L.Check(id, seen, now)))
  {
    LandsAtOnce(s, s.beats, Write(id, L.Disconnected), now);
  }

  predicate Timed(start: int, events: seq<Event>, end: int)
    decreases |events|
  {
    if events == [] then start <= end
    else start <= events[0].now <= End(events[0]) && Timed(End(events[0]), events[1..], end)
  }

  lemma {:induction false} TimedLast(start: int, events: seq<Event>, end: int)
    requires Timed(start, events, end) && events != []
    ensures var n := |events| - 1; Timed(start, events[..n], events[n].now) && events[n].now <= end
    decreases |events|
  {
    if |events| > 1 {
      var n := |events| - 1;
      TimedLast(End(events[0]), events[1..], end);
      assert events[..n][0] == events[0] && events[..n][1..] == events[1..][..n - 1];
    }
  }

  lemma {:induction false} RowsStay(s: State, events: seq<Event>)
    ensures Run(s, events).stored.Keys == s.stored.Keys
    decreases |events|
  {
    if events != [] {
      RowsStay(Apply(s, events[0]), events[1..]);
    }
  }

  /** The event at position j neither brings `id` online again nor restarts the panel. */
  ghost predicate KeepsOnline(s: State, events: seq<Event>, j: int, id: string)
    requires 0 <= j < |events|
  {
    && !events[j].Restart?
    && (events[j].Beat? && events[j].id == id ==> L.IsOnline(Run(s, events[..j]).beats, id, events[j].now))
  }

  ghost predicate BringsOnline(s: State, events: seq<Event>, k: int, id: string) {
    && 0 <= k < |events| && events[k].Beat? && events[k].id == id
    && !L.IsOnline(Run(s, events[..k]).beats, id, events[k].now)
    && forall j :: k < j < |events| ==> KeepsOnline(s, events, j, id)
  }

  /** The event at position j is an update of `id` that lands. */
  ghost predicate Lands(s: State, events: seq<Event>, j: int, id: string) {
    && 0 <= j < |events| && events[j].Land? && events[j].write.id == id
    && events[j].write in Run(s, events[..j]).pending
  }

  /** What the last update of `id` that landed after position k wrote, if there was one. */
  ghost function LastLanded(s: State, events: seq<Event>, k: int, id: string): Option<L.Status>
    requires 0 <= k < |events|
    decreases |events|
  {
    var n := |events| - 1;
    if n == k then None
    else if Lands(s, events, n, id) then Some(events[n].write.status)
    else LastLanded(s, events[..n], k, id)
  }

  /** The status that the last landed update leaves, starting from the row at position k. */
  ghost function Settled(s: State, events: seq<Event>, k: int, id: string): L.Status
    requires 0 <= k < |events| && id in s.stored
  {
    RowsStay(s, events[..k + 1]);
    match LastLanded(s, events, k, id)
    case None => Run(s, events[..k + 1]).stored[id]
    case Some(status) => status
  }

  lemma ShorterOrigin(s: State, events: seq<Event>, k: int, id: string)
    requires events != [] && k < |events| - 1 && BringsOnline(s, events, k, id)
    ensures var n := |events| - 1;
      && BringsOnline(s, events[..n], k, id) && KeepsOnline(s, events, n, id)
      && events[..n][..k + 1] == events[..k + 1]
  {
    var before := events[..|events| - 1];
    assert before[..k] == events[..k];
    forall j | k < j < |before|
      ensures KeepsOnline(s, before, j, id)
    {
      assert KeepsOnline(s, events, j, id) && before[..j] == events[..j];
    }
  }

  /** An event during which `id` stays online decides nothing about it. */
  lemma OnlineDecidesNothing(s: State, e: Event, w: Write)
    requires L.IsOnline(s.beats, w.id, e.now) && !e.Restart?
    ensures Apply(s, e).pending[w] <= s.pending[w]
  {
  }

  lemma StepSettles(s: State, e: Event, id: string)
    requires id in s.stored
    ensures id in Apply(s, e).stored
    ensures Apply(s, e).stored[id] ==
      if e.Land? && e.write.id == id && e.write in s.pending then e.write.status else s.stored[id]
  {
  }

  lemma SettledStep(s: State, events: seq<Event>, k: int, id: string)
    requires 0 <= k < |events| - 1 && id in s.stored
    ensures var n := |events| - 1;
      Settled(s, events, k, id) ==
        if Lands(s, events, n, id) then events[n].write.status else Settled(s, events[..n], k, id)
  {
    assert events[..|events| - 1][..k + 1] == events[..k + 1];
  }

  /** Before the last event the node was online as well, when that event looked. */
  lemma OnlineBefore(s: State, events: seq<Event>, start: int, end: int, id: string, k: int)
    requires Timed(start, events, end) && BringsOnline(s, events, k, id) && k < |events| - 1
    requires L.IsOnline(Run(s, events).beats, id, end)
    ensures var n := |events| - 1;
      && L.IsOnline(Run(s, events[..n]).beats, id, events[n].now) && !events[n].Restart?
      && Timed(start, events[..n], events[n].now)
  {
    ShorterOrigin(s, events, k, id);
    FoldInit(Apply, s, events);
    TimedLast(start, events, end);
  }

  /** Since it came online, no update of the node is decided. */
  lemma {:induction false} PendingShrinks(s: State, events: seq<Event>, start: int, end: int, k: int, w: Write)
    requires Timed(start, events, end) && BringsOnline(s, events, k, w.id)
    requires L.IsOnline(Run(s, events).beats, w.id, end)
    ensures Run(s, events).pending[w] <= Run(s, events[..k + 1]).pending[w]
    decreases |events|
  {
    var n := |events| - 1;
    if k == n {
      assert events[..k + 1] == events;
    } else {
      OnlineBefore(s, events, start, end, w.id, k);
      ShorterOrigin(s, events, k, w.id);
      FoldInit(Apply, s, events);
      PendingShrinks(s, events[..n], start, events[n].now, k, w);
      OnlineDecidesNothing(Run(s, events[..n]), events[n], w);
    }
  }

  /** The last update that lands settles the status. */
  lemma {:induction false} SettlesFrom(s: State, events: seq<Event>, id: string, k: int)
    requires id in s.stored && 0 <= k < |events|
    ensures id in Run(s, events).stored && Run(s, events).stored[id] == Settled(s, events, k, id)
    decreases |events|
  {
    var n := |events| - 1;
    RowsStay(s, events);
    if k == n {
      assert events[..k + 1] == events;
    } else {
      RowsStay(s, events[..n]);
      FoldInit(Apply, s, events);
      SettlesFrom(s, events[..n], id, k);
      StepSettles(Run(s, events[..n]), events[n], id);
      SettledStep(s, events, k, id);
    }
  }

  /** Every update of `id` that lands after it came online had been decided by then. */
  lemma {:induction false} LandedWasPending(
    s: State, events: seq<Event>, start: int, end: int, id: string, k: int, j: int)
    requires Timed(start, events, end) && BringsOnline(s, events, k, id)
    requires L.IsOnline(Run(s, events).beats, id, end) && k < j && Lands(s, events, j, id)
    ensures events[j].write in Run(s, events[..k + 1]).pending
    decreases |events|
  {
    var n := |events| - 1;
    OnlineBefore(s, events, start, end, id, k);
    ShorterOrigin(s, events, k, id);
    if j == n {
      PendingShrinks(s, events[..n], start, events[n].now, k, events[n].write);
    } else {
      assert events[..n][..j] == events[..j];
      LandedWasPending(s, events[..n], start, events[n].now, id, k, j);
    }
  }

  lemma {:induction false} OnlineOrigin(s: State, events: seq<Event>, start: int, end: int, id: string)
    returns (k: int)
    requires s.beats == map[] && Timed(start, events, end) && L.IsOnline(Run(s, events).beats, id, end)
    ensures BringsOnline(s, events, k, id)
    decreases |events|
  {
    assert events != [];
    var n := |events| - 1;
    var before, e := events[..n], events[n];
    FoldInit(Apply, s, events);
    TimedLast(start, events, end);
    if e.Beat? && e.id == id && !L.IsOnline(Run(s, before).beats, id, e.now) {
      k := n;
    } else {
      k := OnlineOrigin(s, before, start, e.now, id);
      LongerOrigin(s, events, k, id);
    }
  }

  lemma LongerOrigin(s: State, events: seq<Event>, k: int, id: string)
    requires events != [] && BringsOnline(s, events[..|events| - 1], k, id)
    requires KeepsOnline(s, events, |events| - 1, id)
    ensures BringsOnline(s, events, k, id)
  {
    var before := events[..|events| - 1];
    assert before[..k] == events[..k];
    forall j | k < j < |events|
      ensures KeepsOnline(s, events, j, id)
    {
      if j < |before| {
        assert KeepsOnline(s, before, j, id) && before[..j] == events[..j];
      }
    }
  }

  /** In every timed run an online node was brought online by a heartbeat; its updates that land since then had been
      decided by then, and the last of them to land settles its status. */
  lemma OnlineIsSettled(
    stored: map<string, L.Status>, events: seq<Event>, start: int, end: int, id: string) returns (k: int)
    requires id in stored && Timed(start, events, end)
    requires L.IsOnline(Run(State(map[], stored, multiset{}), events).beats, id, end)
    ensures var s := State(map[], stored, multiset{});
      && BringsOnline(s, events, k, id)
      && id in Run(s, events).stored && Run(s, events).stored[id] == Settled(s, events, k, id)
      && forall j :: k < j && Lands(s, events, j, id) ==> events[j].write in Run(s, events[..k + 1]).pending
  {
    var s := State(map[], stored, multiset{});
    k := OnlineOrigin(s, events, start, end, id);
    SettlesFrom(s, events, id, k);
    forall j | k < j && Lands(s, events, j, id)
      ensures events[j].write in Run(s, events[..k + 1]).pending
    {
      LandedWasPending(s, events, start, end, id, k, j);
    }
  }

  // ------------------------------------------------------------------------------------------------
  // When can a node that has come online stay disconnected?

  ghost predicate NonePending(s: State, id: string) {
    forall w :: w in s.pending ==> w.id != id
  }

  ghost predicate Unconnected(s: State, id: string) {
    id in s.stored && s.stored[id] != L.Connected
  }

  /** An update of `id` to something else than connected is on its way, or none is and the row says so already. */
  ghost predicate HeadsForUnconnected(s: State, id: string) {
    || (exists w :: w in s.pending && w.id == id && w.status != L.Connected)
    || (NonePending(s, id) && Unconnected(s, id))
  }

  /** After the run the node has stayed online since position k, all its updates have landed, and it is stored as
      unconnected. */
  ghost predicate StuckAt(s: State, events: seq<Event>, start: int, end: int, id: string, k: int) {
    && Timed(start, events, end) && BringsOnline(s, events, k, id)
    && L.IsOnline(Run(s, events).beats, id, end)
    && NonePending(Run(s, events), id) && Unconnected(Run(s, events), id)
  }

  ghost predicate LeadsToStuck(s: State, events: seq<Event>, more: seq<Event>, start: int, end: int, id: string) {
    StuckAt(s, events + more, start, end, id, |events| - 1)
  }

  lemma StepKeepsPending(s: State, e: Event, w: Write)
    requires w in s.pending && !e.Restart? && !(e.Land? && e.write == w)
    ensures w in Apply(s, e).pending
  {
  }

  /** If none of its updates lands, they all stay pending. */
  lemma {:induction false} PendingStays(s: State, events: seq<Event>, id: string, k: int, w: Write)
    requires BringsOnline(s, events, k, id) && id in s.stored && w.id == id
    requires LastLanded(s, events, k, id) == None && w in Run(s, events[..k + 1]).pending
    ensures w in Run(s, events).pending
    decreases |events|
  {
    var n := |events| - 1;
    if k == n {
      assert events[..k + 1] == events;
    } else {
      ShorterOrigin(s, events, k, id);
      FoldInit(Apply, s, events);
      PendingStays(s, events[..n], id, k, w);
      StepKeepsPending(Run(s, events[..n]), events[n], w);
    }
  }

  lemma {:induction false} LastLandedAt(s: State, events: seq<Event>, id: string, k: int) returns (j: int)
    requires 0 <= k < |events| && LastLanded(s, events, k, id).Some?
    ensures k < j && Lands(s, events, j, id) && LastLanded(s, events, k, id) == Some(events[j].write.status)
    decreases |events|
  {
    var n := |events| - 1;
    if Lands(s, events, n, id) {
      j := n;
    } else {
      j := LastLandedAt(s, events[..n], id, k);
      assert events[..n][..j] == events[..j];
    }
  }

  lemma StuckHeadsFor(s: State, events: seq<Event>, start: int, end: int, id: string, k: int)
    requires id in s.stored && StuckAt(s, events, start, end, id, k)
    ensures HeadsForUnconnected(Run(s, events[..k + 1]), id)
  {
    SettlesFrom(s, events, id, k);
    RowsStay(s, events[..k + 1]);
    if LastLanded(s, events, k, id).Some? {
      var j := LastLandedAt(s, events, id, k);
      LandedWasPending(s, events, start, end, id, k, j);
    } else {
      forall w | w in Run(s, events[..k + 1]).pending
        ensures w.id != id
      {
        if w.id == id {
          PendingStays(s, events, id, k, w);
        }
      }
    }
  }

  /** Only updates land, all at one moment. */
  predicate OnlyLandings(events: seq<Event>, now: int) {
    forall k :: 0 <= k < |events| ==> events[k].Land? && events[k].now == now
  }

  /** All updates of `id` but one w land. */
  lemma {:induction false} LandOthers(s: State, id: string, w: Write, now: int) returns (more: seq<Event>)
    requires w in s.pending && w.id == id && id in s.stored
    ensures OnlyLandings(more, now) && Run(s, more).beats == s.beats && id in Run(s, more).stored
    ensures Run(s, more).pending[w] == 1 && forall x :: x in Run(s, more).pending && x.id == id ==> x == w
    decreases |s.pending|
  {
    var x :| x in s.pending && x.id == id && ((exists y :: y in s.pending && y.id == id && y != w) ==> x != w);
    if x == w && s.pending[w] == 1 {
      more := [];
    } else {
      var next := Apply(s, Land(x, now));
      assert |next.pending| == |s.pending| - 1;
      var rest := LandOthers(next, id, w, now);
      more := [Land(x, now)] + rest;
      FoldHead(Apply, s, Land(x, now), rest);
    }
  }

  lemma HeadsForIsStuck(s: State, events: seq<Event>, start: int, id: string) returns (more: seq<Event>)
    requires events != [] && id in s.stored && BringsOnline(s, events, |events| - 1, id)
    requires Timed(start, events, events[|events| - 1].at) && HeadsForUnconnected(Run(s, events), id)
    ensures StuckAt(s, events + more, start, events[|events| - 1].at, id, |events| - 1)
  {
    var k, t, now := |events| - 1, Run(s, events), events[|events| - 1].at;
    FoldInit(Apply, s, events);
    RowsStay(s, events);
    if w :| w in t.pending && w.id == id && w.status != L.Connected {
      var others := LandOthers(t, id, w, now);
      more := others + [Land(w, now)];
      FoldLast(Apply, t, others, Land(w, now));
    } else {
      more := [];
    }
    FoldConcat(Apply, s, events, more);
    LandingsKeepOnline(s, events, more, start, now, id);
  }

  lemma LandingsKeepOnline(s: State, events: seq<Event>, more: seq<Event>, start: int, now: int, id: string)
    requires events != [] && BringsOnline(s, events, |events| - 1, id) && now == events[|events| - 1].at
    requires Timed(start, events, now) && OnlyLandings(more, now)
    ensures Timed(start, events + more, now) && BringsOnline(s, events + more, |events| - 1, id)
  {
    var k := |events| - 1;
    TimedAppend(start, events, more, now);
    assert (events + more)[..k] == events[..k];
    forall j | k < j < |events + more|
      ensures KeepsOnline(s, events + more, j, id)
    {
      assert (events + more)[j] == more[j - |events|];
    }
  }

  lemma {:induction false} TimedAppend(start: int, events: seq<Event>, more: seq<Event>, now: int)
    requires Timed(start, events, now) && OnlyLandings(more, now)
    ensures Timed(start, events + more, now)
    decreases |events|
  {
    if events == [] {
      assert events + more == more;
      LandingsAreTimed(start, more, now);
    } else {
      assert (events + more)[0] == events[0] && (events + more)[1..] == events[1..] + more;
      TimedAppend(End(events[0]), events[1..], more, now);
    }
  }

  lemma {:induction false} LandingsAreTimed(start: int, more: seq<Event>, now: int)
    requires start <= now && OnlyLandings(more, now)
    ensures Timed(start, more, now)
    decreases |more|
  {
    if more != [] {
      LandingsAreTimed(now, more[1..], now);
    }
  }

  /** MAIN RESULT. In every timed run in which rows are loaded earlier and updates land later: right after a heartbeat
      that brings a node online, some continuation in which it stays online and all its updates land leaves it stored
      as unconnected exactly when an update of it to something else than connected is on its way, or none is and the
      row says so already. */
  lemma CanStayUnconnectedIff(stored: map<string, L.Status>, events: seq<Event>, start: int, id: string)
    requires events != [] && id in stored
    requires BringsOnline(State(map[], stored, multiset{}), events, |events| - 1, id)
    requires Timed(start, events, events[|events| - 1].at)
    ensures var s := State(map[], stored, multiset{});
      (exists more, end :: LeadsToStuck(s, events, more, start, end, id))
      <==> HeadsForUnconnected(Run(s, events), id)
  {
    var s := State(map[], stored, multiset{});
    if more, end :| LeadsToStuck(s, events, more, start, end, id) {
      StuckHeadsFor(s, events + more, start, end, id, |events| - 1);
      assert (events + more)[..|events|] == events;
    }
    if HeadsForUnconnected(Run(s, events), id) {
      var more := HeadsForIsStuck(s, events, start, id);
      assert LeadsToStuck(s, events, more, start, events[|events| - 1].at, id);
    }
  }

  const DOWN := Write("n", L.Disconnected)
  const UP := Write("n", L.Connected)

  /** Two health checks load the connected row of an offline node, and the update of the first lands. */
  const TWO_CHECKS: seq<Event> :=
    [Beat("n", L.Connected, 0, 0), Check("n", L.Connected, 60_000), Check("n", L.Connected, 60_000), Land(DOWN, 60_001)]

  lemma AfterTwoChecks()
    ensures Run(State(map[], map["n" := L.Connected], multiset{}), TWO_CHECKS)
         == State(map["n" := 0], map["n" := L.Disconnected], multiset{DOWN})
  {
    var s := State(map[], map["n" := L.Connected], multiset{});
    FoldFour(Apply, s, TWO_CHECKS[0], TWO_CHECKS[1], TWO_CHECKS[2], TWO_CHECKS[3]);
    var a := Apply(s, TWO_CHECKS[0]);
    assert a == State(map["n" := 0], map["n" := L.Connected], multiset{});
    var b := Apply(Apply(a, TWO_CHECKS[1]), TWO_CHECKS[2]);
    assert b == State(map["n" := 0], map["n" := L.Connected], multiset{DOWN, DOWN});
  }

  /** The update of the second lands after that of the next heartbeat: the node is online and stays disconnected,
      although the row of that heartbeat did not say connected. */
  lemma LateUpdateDisconnects()
    ensures var s := Run(State(map[], map["n" := L.Connected], multiset{}), TWO_CHECKS);
      var t := Apply(s, Beat("n", L.Disconnected, 70_000, 70_000));
      Apply(Apply(t, Land(UP, 70_001)), Land(DOWN, 70_002))
      == State(map["n" := 70_000], map["n" := L.Disconnected], multiset{})
  {
    AfterTwoChecks();
    var s := State(map["n" := 0], map["n" := L.Disconnected], multiset{DOWN});
    var t := Apply(s, Beat("n", L.Disconnected, 70_000, 70_000));
    assert t == State(map["n" := 70_000], map["n" := L.Disconnected], multiset{DOWN, UP});
    var u := Apply(t, Land(UP, 70_001));
    assert u == State(map["n" := 70_000], map["n" := L.Connected], multiset{DOWN});
  }
}

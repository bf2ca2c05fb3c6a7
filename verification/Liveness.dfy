/** Node liveness: heartbeat times in the memory of the panel, the wall clock, and the connection status stored with
    the node. A node is online while its last heartbeat is less than a minute old. */
module Liveness {
  import opened Common
  import opened Runs

  const OFFLINE_THRESHOLD_MS: int := 60_000

  datatype Status = Connected | Disconnected | Error

  datatype Node = Node(status: Status, wingsVersion: string)

  /** `beats` holds the arrival time of the last heartbeat of a node since the panel started. */
  datatype State = State(beats: map<string, int>, nodes: map<string, Node>)

  predicate IsOnline(beats: map<string, int>, id: string, now: int) {
    id in beats && now - beats[id] < OFFLINE_THRESHOLD_MS
  }

  /** `seen` is the status in the row that the request loaded, which may be older than the stored one. A heartbeat
      reads the clock twice: `now` when it asks whether the node was online, `at` when it stores its arrival. */
  datatype Event =
    | Beat(id: string, seen: Status, version: string, now: int, at: int)
    | Check(id: string, seen: Status, now: int)
    | Restart(now: int)

  function Begin(e: Event): int { e.now }

  function End(e: Event): int { if e.Beat? then e.at else e.now }

  function SetStatus(nodes: map<string, Node>, id: string, node: Node): map<string, Node> {
    if id in nodes then nodes[id := node] else nodes
  }

  function Apply(s: State, e: Event): State {
    match e
    case Beat(id, seen, version, now, at) =>
      var nodes :=
        if !IsOnline(s.beats, id, now) && seen != Connected then SetStatus(s.nodes, id, Node(Connected, version))
        else s.nodes;
      State(s.beats[id := at], nodes)
    case Check(id, seen, now) =>
      if !IsOnline(s.beats, id, now) && seen == Connected && id in s.nodes
      then s.(nodes := s.nodes[id := s.nodes[id].(status := Disconnected)])
      else s
    case Restart(_) => s.(beats := map[])
  }

  function Run(s: State, events: seq<Event>): State {
    Fold(Apply, s, events)
  }

  // ------------------------------------------------------------------------------------------------
  // The handlers.

  class NodesService {
    var beats: map<string, int>
    var nodes: map<string, Node>

    ghost function AsState(): State
      reads this
    {
      State(beats, nodes)
    }

    /** The heartbeat store starts empty whenever the panel does; the rows are what the database holds. */
    constructor (stored: map<string, Node>)
      ensures AsState() == State(map[], stored)
    {
      beats, nodes := map[], stored;
    }

    method ProcessHeartbeat(id: string, node: Node, version: string, now: int, at: int)
      modifies this
      ensures AsState() == Apply(old(AsState()), Beat(id, node.status, version, now, at))
      ensures beats == old(beats)[id := at]
      ensures id in old(nodes) && (id in old(beats) ==> now - old(beats)[id] >= 60_000) && node.status != Connected ==>
        nodes == old(nodes)[id := Node(Connected, version)]
      ensures id !in old(nodes) || (id in old(beats) && now - old(beats)[id] < 60_000) || node.status == Connected ==>
        nodes == old(nodes)
    {
      var wasOnline := IsOnline(beats, id, now);
      beats := beats[id := at];
      if !wasOnline && node.status != Connected {
        if id in nodes {
          nodes := nodes[id := Node(Connected, version)];
        }
      }
    }

    method GetHealth(id: string, now: int) returns (r: Option<bool>)
      modifies this
      ensures id !in old(nodes) ==> r == None && AsState() == old(AsState())
      ensures id in old(nodes) ==>
        && r == Some(IsOnline(old(beats), id, now))
        && AsState() == Apply(old(AsState()), Check(id, old(nodes)[id].status, now))
      ensures id in old(nodes) ==> r == Some(id in old(beats) && now - old(beats)[id] < 60_000)
      ensures beats == old(beats)
      ensures nodes ==
        if r == Some(false) && old(nodes)[id].status == Connected
        then old(nodes)[id := old(nodes)[id].(status := Disconnected)]
        else old(nodes)
    {
      if id !in nodes {
        return None;
      }
      var node := nodes[id];
      var online := IsOnline(beats, id, now);
      if !online && node.status == Connected {
        nodes := nodes[id := node.(status := Disconnected)];
      }
      return Some(online);
    }
  }

  // ------------------------------------------------------------------------------------------------
  // Runs of atomic handlers under a clock that does not go back.

  /** An atomic handler acts on the row as it is stored. */
  predicate ActsOnStored(s: State, e: Event) {
    e.Restart? || (e.id in s.nodes ==> e.seen == s.nodes[e.id].status)
  }

  predicate Atomic(s: State, events: seq<Event>)
    decreases |events|
  {
    events != [] ==> ActsOnStored(s, events[0]) && Atomic(Apply(s, events[0]), events[1..])
  }

  predicate Timed(start: int, events: seq<Event>, end: int)
    decreases |events|
  {
    if events == [] then start <= end
    else start <= Begin(events[0]) <= End(events[0]) && Timed(End(events[0]), events[1..], end)
  }

  /** No heartbeat is dated after `clock`, and whoever is or gets online by waiting is connected. */
  ghost predicate Inv(s: State, clock: int) {
    && (forall id :: id in s.beats ==> s.beats[id] <= clock)
    && (forall id :: id in s.nodes && IsOnline(s.beats, id, clock) ==> s.nodes[id].status == Connected)
  }

  lemma ApplyKeepsInv(s: State, e: Event, clock: int)
    requires Inv(s, clock) && clock <= Begin(e) <= End(e) && ActsOnStored(s, e)
    ensures Inv(Apply(s, e), End(e))
  {
  }

  lemma {:induction false} RunKeepsInv(s: State, events: seq<Event>, clock: int, end: int)
    requires Inv(s, clock) && Timed(clock, events, end) && Atomic(s, events)
    ensures Inv(Run(s, events), end)
    decreases |events|
  {
    if events != [] {
      ApplyKeepsInv(s, events[0], clock);
      RunKeepsInv(Apply(s, events[0]), events[1..], End(events[0]), end);
    }
  }

  /** MAIN RESULT. Whatever the rows said when the panel started, in every run an online node is stored as
      connected. */
  lemma OnlineIsConnected(stored: map<string, Node>, events: seq<Event>, start: int, end: int, id: string)
    requires Timed(start, events, end) && Atomic(State(map[], stored), events)
    ensures var s := Run(State(map[], stored), events);
      id in s.nodes && IsOnline(s.beats, id, end) ==> s.nodes[id].status == Connected
  {
    RunKeepsInv(State(map[], stored), events, start, end);
  }

  /** MAIN RESULT. Between health checks a node may be stored as connected while it is offline, but right after a
      check of it the status says exactly whether it is online. */
  lemma CheckIsExact(stored: map<string, Node>, events: seq<Event>, start: int, now: int, id: string)
    requires Timed(start, events, now) && Atomic(State(map[], stored), events)
    requires id in Run(State(map[], stored), events).nodes
    ensures var s := Run(State(map[], stored), events);
      var s' := Apply(s, Check(id, s.nodes[id].status, now));
      id in s'.nodes && (s'.nodes[id].status == Connected <==> IsOnline(s'.beats, id, now))
  {
    RunKeepsInv(State(map[], stored), events, start, now);
  }

  /** A heartbeat of `id` among the events that no restart of the panel follows and that is recent at `end`. */
  ghost predicate RecentBeat(events: seq<Event>, k: int, id: string, end: int) {
    && 0 <= k < |events|
    && events[k].Beat? && events[k].id == id && end - events[k].at < OFFLINE_THRESHOLD_MS
    && forall j :: k < j < |events| ==> !events[j].Restart?
  }

  lemma {:induction false} BeatsSurvive(s: State, events: seq<Event>, start: int, end: int, id: string)
    requires Timed(start, events, end)
    requires forall j :: 0 <= j < |events| ==> !events[j].Restart?
    requires id in s.beats && s.beats[id] <= start
    ensures id in Run(s, events).beats && s.beats[id] <= Run(s, events).beats[id]
    decreases |events|
  {
    if events != [] {
      BeatsSurvive(Apply(s, events[0]), events[1..], End(events[0]), end, id);
    }
  }

  lemma {:induction false} TimedAt(start: int, events: seq<Event>, end: int, k: nat)
    requires Timed(start, events, end) && k < |events|
    ensures Timed(End(events[k]), events[k + 1..], end)
    decreases |events|
  {
    if k > 0 {
      TimedAt(End(events[0]), events[1..], end, k - 1);
      assert events[1..][k - 1] == events[k] && events[1..][k..] == events[k + 1..];
    }
  }

  lemma RecentBeatIsOnline(s: State, events: seq<Event>, start: int, end: int, id: string, k: int)
    requires Timed(start, events, end) && RecentBeat(events, k, id, end)
    ensures IsOnline(Run(s, events).beats, id, end)
  {
    var upTo, rest := events[..k + 1], events[k + 1..];
    assert upTo + rest == events && events[..k] + [events[k]] == upTo;
    FoldConcat(Apply, s, upTo, rest);
    FoldConcat(Apply, s, events[..k], [events[k]]);
    var s' := Apply(Run(s, events[..k]), events[k]);
    assert Run(Run(s, events[..k]), [events[k]]) == Run(s', []);
    TimedAt(start, events, end, k);
    BeatsSurvive(s', rest, End(events[k]), end, id);
  }

  lemma {:induction false} OnlineHasRecentBeat(s: State, events: seq<Event>, end: int, id: string) returns (k: int)
    requires s.beats == map[] && IsOnline(Run(s, events).beats, id, end)
    ensures RecentBeat(events, k, id, end)
    decreases |events|
  {
    var last := |events| - 1;
    assert events != [];
    var before := events[..last];
    assert events == before + [events[last]];
    FoldConcat(Apply, s, before, [events[last]]);
    var s' := Run(s, before);
    assert Run(s', [events[last]]) == Run(Apply(s', events[last]), []);
    if events[last].Beat? && events[last].id == id {
      k := last;
    } else {
      k := OnlineHasRecentBeat(s, before, end, id);
      assert before[k] == events[k];
    }
  }

  /** MAIN RESULT. A node is online exactly when a heartbeat of it arrived less than a minute ago and the panel has
      not restarted since. */
  lemma OnlineIffRecentBeat(stored: map<string, Node>, events: seq<Event>, start: int, end: int, id: string)
    requires Timed(start, events, end)
    ensures IsOnline(Run(State(map[], stored), events).beats, id, end) <==>
      exists k :: RecentBeat(events, k, id, end)
  {
    var s := State(map[], stored);
    if IsOnline(Run(s, events).beats, id, end) {
      var k := OnlineHasRecentBeat(s, events, end, id);
    }
    if k :| RecentBeat(events, k, id, end) {
      RecentBeatIsOnline(s, events, start, end, id, k);
    }
  }

  /** Less than a minute passes between `last` and the next heartbeat of `id`, between any two of its heartbeats, and
      between its last heartbeat and `end`; the panel does not restart. */
  predicate Steady(id: string, last: int, events: seq<Event>, end: int)
    decreases |events|
  {
    if events == [] then end - last < OFFLINE_THRESHOLD_MS
    else if events[0].Restart? then false
    else if events[0].Beat? && events[0].id == id then
      events[0].at - last < OFFLINE_THRESHOLD_MS && Steady(id, events[0].at, events[1..], end)
    else Steady(id, last, events[1..], end)
  }

  lemma {:induction false} SteadyUpToNow(id: string, last: int, events: seq<Event>, start: int, end: int)
    requires Timed(start, events, end) && Steady(id, last, events, end)
    ensures start - last < OFFLINE_THRESHOLD_MS
    decreases |events|
  {
    if events != [] {
      SteadyUpToNow(id, if events[0].Beat? && events[0].id == id then events[0].at else last, events[1..],
        End(events[0]), end);
    }
  }

  /** While a node stays online no event touches its status, whatever row the request had loaded. */
  lemma SteadyStep(id: string, s: State, events: seq<Event>, start: int, end: int)
    requires events != [] && Timed(start, events, end)
    requires id in s.beats && Steady(id, s.beats[id], events, end) && id in s.nodes
    ensures IsOnline(s.beats, id, Begin(events[0]))
    ensures var s' := Apply(s, events[0]);
      && id in s'.beats && Steady(id, s'.beats[id], events[1..], end)
      && id in s'.nodes && s'.nodes[id] == s.nodes[id]
  {
    if !(events[0].Beat? && events[0].id == id) {
      SteadyUpToNow(id, s.beats[id], events[1..], End(events[0]), end);
    }
  }

  /** MAIN RESULT. While the heartbeats of a node come less than a minute apart, it is online whenever any event
      looks, and its stored status stays what it is: connected if it was connected, and disconnected if it was not. */
  lemma {:induction false} SteadyIsNeverOffline(
    id: string, s: State, events: seq<Event>, start: int, end: int, k: nat)
    requires Timed(start, events, end) && k <= |events|
    requires id in s.beats && Steady(id, s.beats[id], events, end) && id in s.nodes
    ensures var t := Run(s, events[..k]);
      && id in t.nodes && t.nodes[id] == s.nodes[id]
      && IsOnline(t.beats, id, if k < |events| then Begin(events[k]) else end)
    decreases |events|
  {
    if events == [] {
    } else if k == 0 {
      SteadyStep(id, s, events, start, end);
    } else {
      SteadyStep(id, s, events, start, end);
      SteadyIsNeverOffline(id, Apply(s, events[0]), events[1..], End(events[0]), end, k - 1);
      assert events[..k][0] == events[0] && events[..k][1..] == events[1..][..k - 1];
    }
  }

  // ------------------------------------------------------------------------------------------------
  // Handlers that act on rows loaded earlier.

  /** The heartbeat at position k found `id` offline, and since then every heartbeat of `id` found it online and the
      panel did not restart. */
  ghost predicate BringsOnline(s: State, events: seq<Event>, k: int, id: string) {
    && 0 <= k < |events| && events[k].Beat? && events[k].id == id
    && !IsOnline(Run(s, events[..k]).beats, id, events[k].now)
    && forall j :: k < j < |events| ==> KeepsOnline(s, events, j, id)
  }

  ghost predicate KeepsOnline(s: State, events: seq<Event>, j: int, id: string)
    requires 0 <= j < |events|
  {
    && !events[j].Restart?
    && (events[j].Beat? && events[j].id == id ==> IsOnline(Run(s, events[..j]).beats, id, events[j].now))
  }

  lemma {:induction false} TimedPrefix(start: int, events: seq<Event>, end: int, k: nat)
    requires Timed(start, events, end) && k < |events|
    ensures Timed(start, events[..k], Begin(events[k])) && Begin(events[k]) <= end
    decreases |events|
  {
    if k > 0 {
      TimedPrefix(End(events[0]), events[1..], end, k - 1);
      assert events[..k][0] == events[0] && events[..k][1..] == events[1..][..k - 1];
    }
    TimedEnd(start, events, end);
  }

  lemma {:induction false} TimedEnd(start: int, events: seq<Event>, end: int)
    requires Timed(start, events, end)
    ensures start <= end
    ensures events != [] ==> Begin(events[0]) <= end
    decreases |events|
  {
    if events != [] {
      TimedEnd(End(events[0]), events[1..], end);
    }
  }

  lemma {:induction false} NodesStay(s: State, events: seq<Event>)
    ensures Run(s, events).nodes.Keys == s.nodes.Keys
    decreases |events|
  {
    if events != [] {
      NodesStay(Apply(s, events[0]), events[1..]);
    }
  }

  /** Stored as something else than connected. */
  predicate Unconnected(s: State, id: string) {
    id in s.nodes && s.nodes[id].status != Connected
  }

  lemma LongerPrefixes(s: State, events: seq<Event>, k: int, id: string)
    requires events != [] && BringsOnline(s, events[..|events| - 1], k, id)
    requires KeepsOnline(s, events, |events| - 1, id)
    ensures BringsOnline(s, events, k, id) && events[..|events| - 1][k] == events[k]
    ensures events[..|events| - 1][..k] == events[..k]
  {
    var before := events[..|events| - 1];
    assert before[..k] == events[..k];
    forall j | k < j < |events|
      ensures KeepsOnline(s, events, j, id)
    {
      if j < |before| {
        assert KeepsOnline(s, before, j, id);
        assert before[..j] == events[..j];
      }
    }
  }

  lemma {:induction false} OnlineOrigin(s: State, events: seq<Event>, start: int, end: int, id: string)
    returns (k: int)
    requires s.beats == map[] && id in s.nodes && Timed(start, events, end)
    requires IsOnline(Run(s, events).beats, id, end)
    ensures BringsOnline(s, events, k, id)
    ensures Unconnected(Run(s, events), id) <==>
      Unconnected(Run(s, events[..k]), id) && events[k].seen == Connected
    decreases |events|
  {
    assert events != [];
    var n := |events| - 1;
    var before, e := events[..n], events[n];
    var t := Run(s, before);
    FoldInit(Apply, s, events);
    NodesStay(s, before);
    TimedPrefix(start, events, end, n);
    if e.Beat? && e.id == id && !IsOnline(t.beats, id, e.now) {
      k := n;
    } else {
      k := OnlineOrigin(s, before, start, Begin(e), id);
      LongerPrefixes(s, events, k, id);
    }
  }

  lemma NoLaterOrigin(s: State, events: seq<Event>, k: int, l: int, id: string)
    requires BringsOnline(s, events, k, id) && BringsOnline(s, events, l, id)
    ensures l <= k
  {
    assert k < l ==> KeepsOnline(s, events, l, id);
  }

  /** In every timed run, with rows loaded at any time before they are acted on in one step: an online node was
      brought online by one heartbeat, and it is stored as unconnected exactly when that heartbeat found the stored
      status not connected while the row its request had loaded said connected. */
  lemma OnlineButUnconnectedIff(stored: map<string, Node>, events: seq<Event>, start: int, end: int, id: string)
    requires id in stored && Timed(start, events, end)
    requires IsOnline(Run(State(map[], stored), events).beats, id, end)
    ensures var s := State(map[], stored);
      && (exists k :: BringsOnline(s, events, k, id))
      && forall k :: BringsOnline(s, events, k, id) ==>
           (Unconnected(Run(s, events), id) <==>
              Unconnected(Run(s, events[..k]), id) && events[k].seen == Connected)
  {
    var s := State(map[], stored);
    var k := OnlineOrigin(s, events, start, end, id);
    forall l | BringsOnline(s, events, l, id)
      ensures l == k
    {
      NoLaterOrigin(s, events, k, l, id);
      NoLaterOrigin(s, events, l, k, id);
    }
  }

  const STALE: seq<Event> :=
    [Beat("n", Connected, "1", 0, 0), Check("n", Connected, 70_000), Beat("n", Connected, "1", 70_000, 70_000)]

  lemma AfterStaleRow()
    ensures Run(State(map[], map["n" := Node(Connected, "1")]), STALE)
         == State(map["n" := 70_000], map["n" := Node(Disconnected, "1")])
  {
    var s := State(map[], map["n" := Node(Connected, "1")]);
    assert STALE == [STALE[0], STALE[1]] + [STALE[2]];
    FoldLast(Apply, s, [STALE[0], STALE[1]], STALE[2]);
    FoldTwo(Apply, s, STALE[0], STALE[1]);
    var a := Apply(s, STALE[0]);
    assert a == State(map["n" := 0], map["n" := Node(Connected, "1")]);
    assert Apply(a, STALE[1]) == State(map["n" := 0], map["n" := Node(Disconnected, "1")]);
  }

  /** A health check between the load of the row and the heartbeat that acts on it. From then on the node is
      disconnected for as long as its heartbeats come in time, whatever rows they load. */
  lemma StaleRowKeepsDisconnected(events: seq<Event>, end: int)
    requires Timed(70_000, events, end) && Steady("n", 70_000, events, end)
    ensures var t := Run(State(map[], map["n" := Node(Connected, "1")]), STALE + events);
      IsOnline(t.beats, "n", end) && Unconnected(t, "n")
  {
    var s := State(map[], map["n" := Node(Connected, "1")]);
    AfterStaleRow();
    FoldConcat(Apply, s, STALE, events);
    SteadyIsNeverOffline("n", Run(s, STALE), events, 70_000, end, |events|);
    assert events[..|events|] == events;
  }

  /** A clock that is set back after a check: the node is online again without a heartbeat and disconnected. */
  lemma ClockSetBack()
    ensures var s := State(map["n" := 0], map["n" := Node(Connected, "1")]);
      var t := Apply(s, Check("n", Connected, 60_000));
      IsOnline(t.beats, "n", 59_999) && "n" in t.nodes && t.nodes["n"].status == Disconnected
  {
    var s := State(map["n" := 0], map["n" := Node(Connected, "1")]);
    assert Apply(s, Check("n", Connected, 60_000)) == State(map["n" := 0], map["n" := Node(Disconnected, "1")]);
  }
}

/** How far a node can be over-committed by creates whose capacity check and commit are interleaved. */
module Capacity {
  import opened Common
  import opened Provisioning
  import opened Runs

  function Max(a: int, b: int): int {
    if a < b then b else a
  }

  /** The requests of the creates that are between their capacity check and their commit. */
  function InFlight(s: State, n: Id, r: Resource): map<Id, nat> {
    map t | t in s.tasks && s.tasks[t].Checked? && s.tasks[t].dto.nodeId == n :: Requested(s.tasks[t].dto, r)
  }

  /** What the bound assumes of one event: at most k creates in flight, requests of at most m, limits of the node
      that do not shrink and no update that raises a server. */
  ghost predicate Disciplined(s: State, e: Event, n: Id, r: Resource, k: nat, m: nat) {
    && |InFlight(Apply(s, e), n, r)| <= k
    && (e.StartCreate? && e.dto.nodeId == n ==> Requested(e.dto, r) <= m)
    && (e.EditNode? && e.id == n && n in s.db.nodes ==> Limit(s.db.nodes[n], r) <= Limit(e.node, r))
    && (e.UpdateServer? && e.server in s.db.servers && s.db.servers[e.server].nodeId == n ==>
          (if r == Memory then e.memory else e.disk) <= Amount(s.db.servers[e.server], r))
  }

  ghost predicate DisciplinedRun(s: State, events: seq<Event>, n: Id, r: Resource, k: nat, m: nat)
    decreases |events|
  {
    events != [] ==>
      Disciplined(s, events[0], n, r, k, m) && DisciplinedRun(Apply(s, events[0]), events[1..], n, r, k, m)
  }

  predicate IsCreate(t: Task) {
    t.NodeRead? || t.AllocationRead? || t.Checked?
  }

  ghost predicate TasksBounded(s: State, n: Id, r: Resource, m: nat) {
    forall t :: t in s.tasks && IsCreate(s.tasks[t]) && s.tasks[t].dto.nodeId == n ==>
      && Requested(s.tasks[t].dto, r) <= m
      && (!s.tasks[t].Checked? && n in s.db.nodes ==> Limit(s.tasks[t].node, r) <= Limit(s.db.nodes[n], r))
  }

  /** What is committed plus what is in flight, against the limit plus `slack`. */
  ghost predicate Within(s: State, n: Id, r: Resource, slack: nat) {
    n in s.db.nodes ==>
      100 * (Committed(s.db, n, r) + Sum(InFlight(s, n, r))) <= Max(0, Limit(s.db.nodes[n], r)) + 100 * slack
  }

  /** Where a create in flight after an event comes from. */
  lemma TaskOrigin(s: State, e: Event, t: Id)
    requires t in Apply(s, e).tasks && IsCreate(Apply(s, e).tasks[t])
    ensures var now := Apply(s, e).tasks[t];
      || (&& e == StartCreate(t, now.dto) && now.dto.nodeId in s.db.nodes
          && now == NodeRead(now.dto, s.db.nodes[now.dto.nodeId]))
      || (&& t in s.tasks && IsCreate(s.tasks[t]) && s.tasks[t].dto == now.dto
          && (!now.Checked? ==> !s.tasks[t].Checked? && s.tasks[t].node == now.node))
  {
  }

  lemma ApplyKeepsTasksBounded(s: State, e: Event, n: Id, r: Resource, k: nat, m: nat)
    requires Inv(s) && TasksBounded(s, n, r, m) && Disciplined(s, e, n, r, k, m)
    ensures TasksBounded(Apply(s, e), n, r, m)
  {
    var s' := Apply(s, e);
    forall t | t in s'.tasks && IsCreate(s'.tasks[t]) && s'.tasks[t].dto.nodeId == n
      ensures Requested(s'.tasks[t].dto, r) <= m
      ensures !s'.tasks[t].Checked? && n in s'.db.nodes ==> Limit(s'.tasks[t].node, r) <= Limit(s'.db.nodes[n], r)
    {
      TaskOrigin(s, e, t);
      assert t in s.tasks ==> TaskKnows(s, s.tasks[t]);
      if n in s'.db.nodes {
        OtherEventsKeepLimit(s, e, n, r, k, m);
      }
    }
  }

  /** Rows and requests that only disappear or shrink, under a limit that does not, stay within. */
  lemma ShrinkingKeepsWithin(s: State, s': State, n: Id, r: Resource, slack: nat)
    requires Within(s, n, r, slack)
    requires n in s'.db.nodes ==> n in s.db.nodes && Limit(s.db.nodes[n], r) <= Limit(s'.db.nodes[n], r)
    requires forall x :: x in CommittedRows(s'.db, n, r) ==>
      x in CommittedRows(s.db, n, r) && CommittedRows(s'.db, n, r)[x] <= CommittedRows(s.db, n, r)[x]
    requires forall t :: t in InFlight(s', n, r) ==>
      t in InFlight(s, n, r) && InFlight(s', n, r)[t] <= InFlight(s, n, r)[t]
    ensures Within(s', n, r, slack)
  {
    SumMonotone(CommittedRows(s'.db, n, r), CommittedRows(s.db, n, r));
    SumMonotone(InFlight(s', n, r), InFlight(s, n, r));
  }

  lemma ProductMonotone(a: nat, b: nat, m: nat)
    requires a <= b
    ensures a * m <= b * m
  {
  }

  lemma SumOfFlight(flight: map<Id, nat>, t: Id, k: nat, m: nat)
    requires t in flight && 0 < k && |flight| <= k
    requires forall u :: u in flight ==> flight[u] <= m
    ensures Sum(flight) <= flight[t] + (k - 1) * m
  {
    var others := flight - {t};
    SumSplit(flight, t);
    assert others.Keys == flight.Keys - {t};
    SumBounded(others, m);
    ProductMonotone(|others|, k - 1, m);
  }

  /** The check of `t` went through. */
  ghost predicate Passes(s: State, e: Event, n: Id) {
    && e.CheckCapacity? && e.task in s.tasks && s.tasks[e.task].AllocationRead? && s.tasks[e.task].dto.nodeId == n
    && Apply(s, e).tasks.Keys == s.tasks.Keys
  }

  /** The commit of `t` went through. */
  ghost predicate Commits(s: State, e: Event, n: Id) {
    && e.Commit? && e.task in s.tasks && s.tasks[e.task].Checked? && s.tasks[e.task].dto.nodeId == n
    && e.id !in s.issued && CommitCreate(s.db, s.tasks[e.task].dto, e.id).Some?
  }

  ghost predicate Adds(s: State, e: Event, n: Id) {
    e.AddNode? && e.id == n && n !in s.issued
  }

  lemma PassedCheckFits(s: State, e: Event, n: Id, r: Resource, m: nat)
    requires TasksBounded(s, n, r, m) && Passes(s, e, n)
    ensures var s' := Apply(s, e);
      && s'.db == s.db && e.task in InFlight(s', n, r)
      && (n in s.db.nodes ==>
            100 * (Committed(s.db, n, r) + InFlight(s', n, r)[e.task]) <= Limit(s.db.nodes[n], r))
  {
  }

  /** A passed check: what was committed then, plus this request, fits; the others are at most k - 1. */
  lemma CheckKeepsWithin(s: State, e: Event, n: Id, r: Resource, k: nat, m: nat, slack: nat)
    requires TasksBounded(s, n, r, m) && TasksBounded(Apply(s, e), n, r, m) && Passes(s, e, n)
    requires 0 < k && |InFlight(Apply(s, e), n, r)| <= k && slack == (k - 1) * m
    ensures Within(Apply(s, e), n, r, slack)
  {
    PassedCheckFits(s, e, n, r, m);
    SumOfFlight(InFlight(Apply(s, e), n, r), e.task, k, m);
  }

  lemma CommitAddsRow(s: State, e: Event, n: Id, r: Resource)
    requires s.db.servers.Keys <= s.issued && Commits(s, e, n)
    ensures Committed(Apply(s, e).db, n, r) == Committed(s.db, n, r) + Requested(s.tasks[e.task].dto, r)
  {
    var s' := Apply(s, e);
    var amount := Requested(s.tasks[e.task].dto, r);
    var rows := CommittedRows(s.db, n, r);
    assert s'.db.servers == s.db.servers[e.id := Row(s.tasks[e.task].dto)];
    assert CommittedRows(s'.db, n, r) == rows[e.id := amount];
    SumUpdate(rows, e.id, amount);
    assert rows - {e.id} == rows;
  }

  lemma CommitEndsFlight(s: State, e: Event, n: Id, r: Resource)
    requires Commits(s, e, n)
    ensures Sum(InFlight(s, n, r)) == Sum(InFlight(Apply(s, e), n, r)) + Requested(s.tasks[e.task].dto, r)
  {
    assert InFlight(Apply(s, e), n, r) == InFlight(s, n, r) - {e.task};
    SumSplit(InFlight(s, n, r), e.task);
  }

  /** A commit moves a request from in flight to committed. */
  lemma CommitMovesRequest(s: State, e: Event, n: Id, r: Resource)
    requires s.db.servers.Keys <= s.issued && Commits(s, e, n)
    ensures Committed(Apply(s, e).db, n, r) + Sum(InFlight(Apply(s, e), n, r))
         == Committed(s.db, n, r) + Sum(InFlight(s, n, r))
  {
    CommitAddsRow(s, e, n, r);
    CommitEndsFlight(s, e, n, r);
  }

  lemma CommitKeepsWithin(s: State, e: Event, n: Id, r: Resource, slack: nat)
    requires Inv(s) && Within(s, n, r, slack) && Commits(s, e, n)
    ensures Within(Apply(s, e), n, r, slack)
  {
    CommitMovesRequest(s, e, n, r);
    assert Apply(s, e).db.nodes == s.db.nodes;
  }

  lemma NewNodeIsWithin(s: State, e: Event, n: Id, r: Resource, slack: nat)
    requires Inv(s) && Adds(s, e, n)
    ensures Within(Apply(s, e), n, r, slack)
  {
    var s' := Apply(s, e);
    forall t | t in s.tasks ensures TaskKnows(s, s.tasks[t]) {}
    assert CommittedRows(s'.db, n, r) == map[];
    assert InFlight(s', n, r) == map[];
  }

  /** Where the node row after an event comes from. */
  lemma NodeRowOrigin(s: State, e: Event, n: Id)
    requires !Adds(s, e, n) && n in Apply(s, e).db.nodes
    ensures n in s.db.nodes
    ensures Apply(s, e).db.nodes[n] == if e.EditNode? && e.id == n then e.node else s.db.nodes[n]
  {
  }

  lemma OtherEventsKeepLimit(s: State, e: Event, n: Id, r: Resource, k: nat, m: nat)
    requires Disciplined(s, e, n, r, k, m) && !Adds(s, e, n) && n in Apply(s, e).db.nodes
    ensures n in s.db.nodes && Limit(s.db.nodes[n], r) <= Limit(Apply(s, e).db.nodes[n], r)
  {
    NodeRowOrigin(s, e, n);
  }

  /** Where a server row after an event comes from. */
  lemma ServerRowOrigin(s: State, e: Event, n: Id, x: Id)
    requires !Commits(s, e, n) && x in Apply(s, e).db.servers && Apply(s, e).db.servers[x].nodeId == n
    ensures x in s.db.servers && s.db.servers[x].nodeId == n
    ensures Apply(s, e).db.servers[x] ==
      if e.UpdateServer? && e.server == x then s.db.servers[x].(memory := e.memory, disk := e.disk)
      else s.db.servers[x]
  {
  }

  lemma OtherEventsKeepRows(s: State, e: Event, n: Id, r: Resource, k: nat, m: nat, x: Id)
    requires Disciplined(s, e, n, r, k, m) && !Commits(s, e, n) && x in CommittedRows(Apply(s, e).db, n, r)
    ensures x in CommittedRows(s.db, n, r)
      && CommittedRows(Apply(s, e).db, n, r)[x] <= CommittedRows(s.db, n, r)[x]
  {
    ServerRowOrigin(s, e, n, x);
  }

  lemma OtherEventsKeepFlight(s: State, e: Event, n: Id, r: Resource, t: Id)
    requires !Passes(s, e, n) && t in InFlight(Apply(s, e), n, r)
    ensures t in InFlight(s, n, r) && InFlight(Apply(s, e), n, r)[t] == InFlight(s, n, r)[t]
  {
  }

  lemma ApplyKeepsWithin(s: State, e: Event, n: Id, r: Resource, k: nat, m: nat, slack: nat)
    requires Inv(s) && TasksBounded(s, n, r, m) && 0 < k && Disciplined(s, e, n, r, k, m)
    requires slack == (k - 1) * m && Within(s, n, r, slack)
    ensures Within(Apply(s, e), n, r, slack)
  {
    var s' := Apply(s, e);
    if Passes(s, e, n) {
      ApplyKeepsTasksBounded(s, e, n, r, k, m);
      CheckKeepsWithin(s, e, n, r, k, m, slack);
    } else if Commits(s, e, n) {
      CommitKeepsWithin(s, e, n, r, slack);
    } else if Adds(s, e, n) {
      NewNodeIsWithin(s, e, n, r, slack);
    } else {
      if n in s'.db.nodes {
        OtherEventsKeepLimit(s, e, n, r, k, m);
      }
      forall x | x in CommittedRows(s'.db, n, r) ensures
        x in CommittedRows(s.db, n, r) && CommittedRows(s'.db, n, r)[x] <= CommittedRows(s.db, n, r)[x]
      {
        OtherEventsKeepRows(s, e, n, r, k, m, x);
      }
      forall t | t in InFlight(s', n, r) ensures
        t in InFlight(s, n, r) && InFlight(s', n, r)[t] <= InFlight(s, n, r)[t]
      {
        OtherEventsKeepFlight(s, e, n, r, t);
      }
      ShrinkingKeepsWithin(s, s', n, r, slack);
    }
  }

  lemma {:induction false} RunKeepsWithin(s: State, events: seq<Event>, n: Id, r: Resource, k: nat, m: nat, slack: nat)
    requires Inv(s) && TasksBounded(s, n, r, m) && 0 < k && slack == (k - 1) * m && Within(s, n, r, slack)
    requires DisciplinedRun(s, events, n, r, k, m)
    ensures Within(Run(s, events), n, r, slack)
    decreases |events|
  {
    if events != [] {
      ApplyKeepsInv(s, events[0]);
      ApplyKeepsTasksBounded(s, events[0], n, r, k, m);
      ApplyKeepsWithin(s, events[0], n, r, k, m, slack);
      RunKeepsWithin(Apply(s, events[0]), events[1..], n, r, k, m, slack);
    }
  }

  /** MAIN RESULT. With at most k creates of a node between check and commit at once, each asking for at most m,
      the committed memory (or disk) of the node never exceeds its over-allocated capacity by more than
      (k - 1) * m. */
  lemma OvercommitBound(events: seq<Event>, n: Id, r: Resource, k: nat, m: nat, slack: nat)
    requires 0 < k && DisciplinedRun(EMPTY, events, n, r, k, m) && slack == (k - 1) * m
    ensures var db := Run(EMPTY, events).db;
            n in db.nodes ==> 100 * Committed(db, n, r) <= Max(0, Limit(db.nodes[n], r)) + 100 * slack
  {
    RunKeepsWithin(EMPTY, events, n, r, k, m, slack);
  }

  /** One create at a time never over-commits. */
  lemma SerialCreatesNeverOvercommit(events: seq<Event>, n: Id, r: Resource, m: nat)
    requires DisciplinedRun(EMPTY, events, n, r, 1, m)
    ensures var db := Run(EMPTY, events).db;
            n in db.nodes ==> 100 * Committed(db, n, r) <= Max(0, Limit(db.nodes[n], r))
  {
    OvercommitBound(events, n, r, 1, m, 0);
  }

  // ------------------------------------------------------------------------------------------------
  // The bound is reached, for every k and m, in a run from the empty database.

  /** The t-th request: all of the node, on the allocation with id t. */
  function Whole(t: Id, m: nat): CreateDto {
    CreateDto(0, t, m, m)
  }

  function FullNode(m: nat): Node {
    Node(m, 0, m, 0)
  }

  function Prepare(t: Id, m: nat): seq<Event> {
    [AddAllocation(t, 0, "0.0.0.0", t), StartCreate(t, Whole(t, m)), ReadAllocation(t), CheckCapacity(t)]
  }

  /** The n ids after lo. */
  function Ids(lo: Id, n: nat): (ids: set<Id>)
    ensures |ids| == n && forall t :: t in ids <==> lo < t <= lo + n
  {
    if n == 0 then {} else Ids(lo, n - 1) + {lo + n}
  }

  /** Requests 1 to i have passed their check and nothing is committed. */
  ghost predicate Waiting(s: State, i: nat, m: nat) {
    && s.db.nodes == map[0 := FullNode(m)] && s.db.servers == map[]
    && (forall a :: a in s.db.allocations <==> 0 < a <= i)
    && (forall a :: a in s.db.allocations ==> s.db.allocations[a] == Allocation(0, "0.0.0.0", a, None))
    && (forall t :: t in s.tasks <==> 0 < t <= i)
    && (forall t :: t in s.tasks ==> s.tasks[t] == Checked(Whole(t, m)))
    && (forall x :: x in s.issued <==> 0 <= x <= i)
  }

  /** Of the k requests the first j are committed. */
  ghost predicate Committing(s: State, j: nat, k: nat, m: nat) {
    && j <= k
    && s.db.nodes == map[0 := FullNode(m)]
    && (forall x :: x in s.db.servers <==> k < x <= k + j)
    && (forall x :: x in s.db.servers ==> s.db.servers[x] == Row(Whole(x - k, m)))
    && (forall t :: t in s.tasks <==> j < t <= k)
    && (forall t :: t in s.tasks ==> s.tasks[t] == Checked(Whole(t, m)))
    && (forall x :: x in s.issued <==> 0 <= x <= k + j)
  }

  lemma FewInFlight(s: State, n: Id, r: Resource, k: nat)
    requires forall t :: t in s.tasks ==> 1 <= t <= k
    ensures |InFlight(s, n, r)| <= k
  {
    SubsetIsSmaller(InFlight(s, n, r).Keys, Ids(0, k));
  }

  lemma {:induction false} SubsetIsSmaller(xs: set<Id>, ys: set<Id>)
    requires xs <= ys
    ensures |xs| <= |ys|
  {
    if xs != {} {
      var x :| x in xs;
      SubsetIsSmaller(xs - {x}, ys - {x});
    }
  }

  lemma HeadAndTail(xs: seq<Event>, ys: seq<Event>)
    requires xs != []
    ensures xs == [xs[0]] + xs[1..] && xs + ys == [xs[0]] + (xs[1..] + ys)
  {
  }

  lemma DisciplinedCons(s: State, e: Event, rest: seq<Event>, n: Id, r: Resource, k: nat, m: nat)
    ensures DisciplinedRun(s, [e] + rest, n, r, k, m)
      <==> Disciplined(s, e, n, r, k, m) && DisciplinedRun(Apply(s, e), rest, n, r, k, m)
  {
    assert ([e] + rest)[1..] == rest;
  }

  lemma {:induction false} DisciplinedConcat(
    s: State, xs: seq<Event>, ys: seq<Event>, n: Id, r: Resource, k: nat, m: nat)
    requires DisciplinedRun(s, xs, n, r, k, m) && DisciplinedRun(Run(s, xs), ys, n, r, k, m)
    ensures DisciplinedRun(s, xs + ys, n, r, k, m)
    decreases |xs|
  {
    if xs == [] {
      assert xs + ys == ys;
    } else {
      HeadAndTail(xs, ys);
      DisciplinedCons(s, xs[0], xs[1..], n, r, k, m);
      DisciplinedConcat(Apply(s, xs[0]), xs[1..], ys, n, r, k, m);
      DisciplinedCons(s, xs[0], xs[1..] + ys, n, r, k, m);
    }
  }

  lemma DisciplinedOne(s: State, e: Event, n: Id, r: Resource, k: nat, m: nat)
    requires Disciplined(s, e, n, r, k, m)
    ensures DisciplinedRun(s, [e], n, r, k, m) && Run(s, [e]) == Apply(s, e)
  {
    assert [e][1..] == [];
    assert Run(Apply(s, e), []) == Apply(s, e);
  }

  lemma AllocationAdded(s: State, t: Id)
    requires t !in s.issued && 0 in s.db.nodes && FreeEndpoint(s.db, 0, "0.0.0.0", t)
    ensures Apply(s, AddAllocation(t, 0, "0.0.0.0", t)) ==
      State(s.db.(allocations := s.db.allocations[t := Allocation(0, "0.0.0.0", t, None)]), s.tasks, s.issued + {t})
  {
  }

  lemma CheckPasses(s: State, t: Id, m: nat)
    requires t in s.tasks && s.tasks[t] == AllocationRead(Whole(t, m), FullNode(m)) && s.db.servers == map[]
    ensures Apply(s, CheckCapacity(t)) == s.(tasks := s.tasks[t := Checked(Whole(t, m))])
  {
    assert CommittedRows(s.db, 0, Memory) == map[] && CommittedRows(s.db, 0, Disk) == map[];
  }

  lemma OneMoreWaiting(s: State, s': State, i: nat, m: nat)
    requires Waiting(s, i, m) && s'.db.nodes == s.db.nodes && s'.db.servers == s.db.servers
    requires s'.db.allocations == s.db.allocations[i + 1 := Allocation(0, "0.0.0.0", i + 1, None)]
    requires s'.tasks == s.tasks[i + 1 := Checked(Whole(i + 1, m))] && s'.issued == s.issued + {i + 1}
    ensures Waiting(s', i + 1, m)
  {
  }

  lemma StartAndRead(s: State, t: Id, m: nat)
    requires t !in s.tasks && s.db.nodes == map[0 := FullNode(m)]
    requires t in s.db.allocations && s.db.allocations[t] == Allocation(0, "0.0.0.0", t, None)
    ensures var b := Apply(s, StartCreate(t, Whole(t, m)));
      && b == s.(tasks := s.tasks[t := NodeRead(Whole(t, m), FullNode(m))])
      && Apply(b, ReadAllocation(t)) == s.(tasks := s.tasks[t := AllocationRead(Whole(t, m), FullNode(m))])
  {
    var b := Apply(s, StartCreate(t, Whole(t, m)));
    assert b == s.(tasks := s.tasks[t := NodeRead(Whole(t, m), FullNode(m))]);
    assert AllocationRefusal(b.db, Whole(t, m)) == None;
    assert b.tasks[t := AllocationRead(Whole(t, m), FullNode(m))] ==
      s.tasks[t := AllocationRead(Whole(t, m), FullNode(m))];
  }

  lemma PrepareOne(s: State, i: nat, m: nat)
    requires Waiting(s, i, m)
    ensures var e := Prepare(i + 1, m);
      var a := Apply(s, e[0]);
      var b := Apply(a, e[1]);
      var c := Apply(b, e[2]);
      && a.tasks == s.tasks
      && b.tasks == s.tasks[i + 1 := NodeRead(Whole(i + 1, m), FullNode(m))]
      && c.tasks == s.tasks[i + 1 := AllocationRead(Whole(i + 1, m), FullNode(m))]
      && Waiting(Apply(c, e[3]), i + 1, m)
  {
    var t := i + 1;
    AllocationAdded(s, t);
    var a := Apply(s, AddAllocation(t, 0, "0.0.0.0", t));
    StartAndRead(a, t, m);
    var c := Apply(Apply(a, StartCreate(t, Whole(t, m))), ReadAllocation(t));
    CheckPasses(c, t, m);
    assert c.tasks[t := Checked(Whole(t, m))] == s.tasks[t := Checked(Whole(t, m))];
    OneMoreWaiting(s, Apply(c, CheckCapacity(t)), i, m);
  }

  lemma PrepareFlights(s: State, i: nat, k: nat, m: nat, r: Resource)
    requires Waiting(s, i, m) && i < k
    ensures DisciplinedRun(s, Prepare(i + 1, m), 0, r, k, m)
  {
    var e := Prepare(i + 1, m);
    PrepareOne(s, i, m);
    var a := Apply(s, e[0]);
    var b := Apply(a, e[1]);
    var c := Apply(b, e[2]);
    FewInFlight(a, 0, r, k);
    FewInFlight(b, 0, r, k);
    FewInFlight(c, 0, r, k);
    FewInFlight(Apply(c, e[3]), 0, r, k);
    DisciplinedFour(s, e[0], e[1], e[2], e[3], r, k, m);
  }

  lemma PrepareIsDisciplined(s: State, i: nat, k: nat, m: nat, r: Resource) returns (e: seq<Event>, s': State)
    requires Waiting(s, i, m) && i < k
    ensures DisciplinedRun(s, e, 0, r, k, m) && s' == Run(s, e) && Waiting(s', i + 1, m)
  {
    e := Prepare(i + 1, m);
    s' := Run(s, e);
    PrepareFlights(s, i, k, m, r);
    PrepareOne(s, i, m);
    FoldFour(Apply, s, e[0], e[1], e[2], e[3]);
  }

  lemma DisciplinedFour(s: State, a: Event, b: Event, c: Event, d: Event, r: Resource, k: nat, m: nat)
    requires Disciplined(s, a, 0, r, k, m) && Disciplined(Apply(s, a), b, 0, r, k, m)
    requires Disciplined(Apply(Apply(s, a), b), c, 0, r, k, m)
    requires Disciplined(Apply(Apply(Apply(s, a), b), c), d, 0, r, k, m)
    ensures DisciplinedRun(s, [a, b, c, d], 0, r, k, m)
  {
    assert [a, b, c, d][1..] == [b, c, d] && [b, c, d][1..] == [c, d] && [c, d][1..] == [d];
    DisciplinedOne(Apply(Apply(Apply(s, a), b), c), d, 0, r, k, m);
    assert DisciplinedRun(Apply(Apply(s, a), b), [c, d], 0, r, k, m);
    assert DisciplinedRun(Apply(s, a), [b, c, d], 0, r, k, m);
  }

  /** Appending a disciplined run to one that leads to its start. */
  lemma Extend(s: State, xs: seq<Event>, mid: State, ys: seq<Event>, n: Id, r: Resource, k: nat, m: nat)
    requires DisciplinedRun(s, xs, n, r, k, m) && Run(s, xs) == mid && DisciplinedRun(mid, ys, n, r, k, m)
    ensures DisciplinedRun(s, xs + ys, n, r, k, m) && Run(s, xs + ys) == Run(mid, ys)
  {
    FoldConcat(Apply, s, xs, ys);
    DisciplinedConcat(s, xs, ys, n, r, k, m);
  }

  lemma NodeAdded(k: nat, m: nat, r: Resource) returns (e: seq<Event>, s: State)
    ensures DisciplinedRun(EMPTY, e, 0, r, k, m) && s == Run(EMPTY, e) && Waiting(s, 0, m)
  {
    e, s := [AddNode(0, FullNode(m))], Apply(EMPTY, AddNode(0, FullNode(m)));
    assert s.issued == {0};
    FewInFlight(s, 0, r, k);
    DisciplinedOne(EMPTY, AddNode(0, FullNode(m)), 0, r, k, m);
  }

  lemma {:induction false} AllWait(i: nat, k: nat, m: nat, r: Resource) returns (events: seq<Event>, s: State)
    requires i <= k
    ensures DisciplinedRun(EMPTY, events, 0, r, k, m) && s == Run(EMPTY, events) && Waiting(s, i, m)
  {
    if i == 0 {
      events, s := NodeAdded(k, m, r);
    } else {
      var before, mid := AllWait(i - 1, k, m, r);
      var e, s' := PrepareIsDisciplined(mid, i - 1, k, m, r);
      Extend(EMPTY, before, mid, e, 0, r, k, m);
      events, s := before + e, s';
    }
  }

  lemma CommitApplies(s: State, t: Id, dto: CreateDto, id: Id)
    requires t in s.tasks && s.tasks[t] == Checked(dto) && id !in s.issued && MayInsert(s.db, Row(dto))
    ensures var s' := Apply(s, Commit(t, id));
      && s'.db.servers == s.db.servers[id := Row(dto)] && s'.db.nodes == s.db.nodes
      && s'.tasks == s.tasks - {t} && s'.issued == s.issued + {id}
  {
  }

  lemma OneMoreCommitted(s: State, s': State, j: nat, k: nat, m: nat)
    requires Committing(s, j, k, m) && j < k
    requires s'.db.servers == s.db.servers[k + j + 1 := Row(Whole(j + 1, m))] && s'.db.nodes == s.db.nodes
    requires s'.tasks == s.tasks - {j + 1} && s'.issued == s.issued + {k + j + 1}
    ensures Committing(s', j + 1, k, m)
  {
  }

  lemma NextMayCommit(s: State, j: nat, k: nat, m: nat)
    requires Committing(s, j, k, m) && j < k
    ensures MayInsert(s.db, Row(Whole(j + 1, m)))
  {
    assert forall x :: x in s.db.servers ==> s.db.servers[x].allocationId == x - k;
  }

  lemma CommitOne(s: State, j: nat, k: nat, m: nat)
    requires Committing(s, j, k, m) && j < k
    ensures Committing(Apply(s, Commit(j + 1, k + j + 1)), j + 1, k, m)
  {
    NextMayCommit(s, j, k, m);
    CommitApplies(s, j + 1, Whole(j + 1, m), k + j + 1);
    OneMoreCommitted(s, Apply(s, Commit(j + 1, k + j + 1)), j, k, m);
  }

  lemma CommitIsDisciplined(s: State, j: nat, k: nat, m: nat, r: Resource) returns (e: seq<Event>, s': State)
    requires Committing(s, j, k, m) && j < k
    ensures DisciplinedRun(s, e, 0, r, k, m) && s' == Run(s, e) && Committing(s', j + 1, k, m)
  {
    e, s' := [Commit(j + 1, k + j + 1)], Apply(s, Commit(j + 1, k + j + 1));
    CommitOne(s, j, k, m);
    FewInFlight(s', 0, r, k);
    DisciplinedOne(s, Commit(j + 1, k + j + 1), 0, r, k, m);
  }

  lemma {:induction false} AllCommit(s: State, j: nat, k: nat, m: nat, r: Resource)
    returns (events: seq<Event>, s': State)
    requires Waiting(s, k, m) && j <= k
    ensures DisciplinedRun(s, events, 0, r, k, m) && s' == Run(s, events) && Committing(s', j, k, m)
  {
    if j == 0 {
      events, s' := [], s;
    } else {
      var before, mid := AllCommit(s, j - 1, k, m, r);
      var e, last := CommitIsDisciplined(mid, j - 1, k, m, r);
      Extend(s, before, mid, e, 0, r, k, m);
      events, s' := before + e, last;
    }
  }

  lemma {:induction false} SumOfEqual(w: map<nat, nat>, m: nat)
    requires forall x :: x in w ==> w[x] == m
    ensures Sum(w) == |w| * m
    decreases |w|
  {
    if w != map[] {
      var x :| x in w;
      SumSplit(w, x);
      SumOfEqual(w - {x}, m);
      assert |w - {x}| == |w| - 1 by {
        assert (w - {x}).Keys == w.Keys - {x};
      }
      OneMore(|w| - 1, m);
    }
  }

  lemma AllOfThem(s: State, k: nat, m: nat, r: Resource)
    requires Committing(s, k, k, m)
    ensures Committed(s.db, 0, r) == k * m
  {
    var rows := CommittedRows(s.db, 0, r);
    assert rows.Keys == Ids(k, k);
    SumOfEqual(rows, m);
  }

  /** MAIN RESULT. The bound is tight for every k and m: k creates of m each that all check before any commits, on a
      node of capacity m, leave it (k - 1) * m above its capacity. */
  lemma BoundIsReached(k: nat, m: nat, r: Resource) returns (events: seq<Event>)
    requires 0 < k
    ensures DisciplinedRun(EMPTY, events, 0, r, k, m)
    ensures var db := Run(EMPTY, events).db;
      && 0 in db.nodes && Limit(db.nodes[0], r) == 100 * m
      && 100 * Committed(db, 0, r) == Limit(db.nodes[0], r) + 100 * ((k - 1) * m)
  {
    var checks, s := AllWait(k, k, m, r);
    var commits, s' := AllCommit(s, k, k, m, r);
    events := checks + commits;
    Extend(EMPTY, checks, s, commits, 0, r, k, m);
    AllOfThem(s', k, m, r);
    OneMore(k - 1, m);
  }

  ghost predicate WithinLimit(db: Db, n: Id, r: Resource) {
    n in db.nodes ==> 100 * Committed(db, n, r) <= Max(0, Limit(db.nodes[n], r))
  }

  /** Whatever happens, with at most k creates of m each in flight, no node is over-committed. */
  ghost predicate NeverOvercommits(r: Resource, k: nat, m: nat) {
    forall events, n :: DisciplinedRun(EMPTY, events, n, r, k, m) ==> WithinLimit(Run(EMPTY, events).db, n, r)
  }

  lemma {:induction false} MoreMayBeInFlight(s: State, events: seq<Event>, n: Id, r: Resource, k: nat, m: nat)
    requires DisciplinedRun(s, events, n, r, k, m)
    ensures DisciplinedRun(s, events, n, r, k + 1, m)
    decreases |events|
  {
    if events != [] {
      MoreMayBeInFlight(Apply(s, events[0]), events[1..], n, r, k, m);
    }
  }

  lemma SmallOrSerialIsWithin(events: seq<Event>, n: Id, r: Resource, k: nat, m: nat)
    requires DisciplinedRun(EMPTY, events, n, r, k, m) && (k <= 1 || m == 0)
    ensures WithinLimit(Run(EMPTY, events).db, n, r)
  {
    if k == 0 {
      MoreMayBeInFlight(EMPTY, events, n, r, k, m);
      OvercommitBound(events, n, r, 1, m, 0);
    } else {
      OvercommitBound(events, n, r, k, m, 0);
    }
  }

  lemma BoundIsOverLimit(k: nat, m: nat, r: Resource)
    requires 1 < k && 0 < m
    ensures !NeverOvercommits(r, k, m)
  {
    var events := BoundIsReached(k, m, r);
    ProductMonotone(1, k - 1, m);
    var db := Run(EMPTY, events).db;
    assert !WithinLimit(db, 0, r);
  }

  /** MAIN RESULT. Over-commit is ruled out exactly when at most one create is between check and commit at a time, or
      requests are of size 0. */
  lemma NeverOvercommitsIff(r: Resource, k: nat, m: nat)
    ensures NeverOvercommits(r, k, m) <==> k <= 1 || m == 0
  {
    if k <= 1 || m == 0 {
      forall events, n | DisciplinedRun(EMPTY, events, n, r, k, m)
        ensures WithinLimit(Run(EMPTY, events).db, n, r)
      {
        SmallOrSerialIsWithin(events, n, r, k, m);
      }
    } else {
      BoundIsOverLimit(k, m, r);
    }
  }
}

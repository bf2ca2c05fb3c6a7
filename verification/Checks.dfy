/** What a committed create had been checked for: the steps of a request on the columns they look at, and the history
    of every commit. */
module Checks {
  import opened Common
  import opened Provisioning
  import opened Runs

  // ------------------------------------------------------------------------------------------------
  // The steps of a request, on the columns they look at.

  /** A create goes past its allocation check exactly when the allocation is there, on the node, and assigned to
      nobody. */
  lemma AllocationCheckPassesIff(s: State, t: Id)
    requires t in s.tasks && s.tasks[t].NodeRead?
    ensures var s', dto := Apply(s, ReadAllocation(t)), s.tasks[t].dto;
      && (t in s'.tasks <==>
            && dto.allocationId in s.db.allocations
            && s.db.allocations[dto.allocationId].nodeId == dto.nodeId
            && s.db.allocations[dto.allocationId].serverId == None)
      && (t in s'.tasks ==> s'.tasks[t] == AllocationRead(dto, s.tasks[t].node))
      && s'.db == s.db && s'.tasks - {t} == s.tasks - {t}
  {
  }

  /** It goes past its capacity check exactly when what is committed now plus the request fits the node as it was
      read, for memory and for disk. */
  lemma CapacityCheckPassesIff(s: State, t: Id)
    requires t in s.tasks && s.tasks[t].AllocationRead?
    ensures var s', dto, node := Apply(s, CheckCapacity(t)), s.tasks[t].dto, s.tasks[t].node;
      && (t in s'.tasks <==>
            && 100 * (Committed(s.db, dto.nodeId, Memory) + dto.memory) <= node.memory * (100 + node.memoryOverallocate)
            && 100 * (Committed(s.db, dto.nodeId, Disk) + dto.disk) <= node.disk * (100 + node.diskOverallocate))
      && (t in s'.tasks ==> s'.tasks[t] == Checked(dto))
      && s'.db == s.db && s'.tasks - {t} == s.tasks - {t}
  {
  }

  /** Nothing else brings a request past a check. */
  lemma OnlyChecksAdvance(s: State, e: Event, t: Id)
    requires t in Apply(s, e).tasks && (t in s.tasks ==> Apply(s, e).tasks[t] != s.tasks[t])
    ensures var now := Apply(s, e).tasks[t];
      && (now.AllocationRead? ==> e == ReadAllocation(t) && t in s.tasks && s.tasks[t] == NodeRead(now.dto, now.node))
      && (now.Checked? ==>
            e == CheckCapacity(t) && t in s.tasks && s.tasks[t].AllocationRead? && s.tasks[t].dto == now.dto)
  {
  }

  /** A commit of a checked create goes through exactly when the node is still there and no live server holds the
      allocation; it then adds one row. */
  lemma CommitPassesIff(s: State, t: Id, id: Id)
    requires t in s.tasks && s.tasks[t].Checked? && id !in s.issued && id !in s.db.servers
    ensures var s', dto := Apply(s, Commit(t, id)), s.tasks[t].dto;
      && (id in s'.db.servers <==>
            && dto.nodeId in s.db.nodes
            && forall x :: x in s.db.servers ==> s.db.servers[x].allocationId != dto.allocationId)
      && (id in s'.db.servers ==>
            s'.db.servers == s.db.servers[id := Server(dto.nodeId, dto.allocationId, dto.memory, dto.disk)])
      && (id !in s'.db.servers ==> s'.db == s.db)
  {
  }

  /** What the administration takes away: a bulk delete the unassigned allocations of a node and nothing else, the
      removal of a node everything on it. */
  lemma AdministrationTakes(s: State, node: Id)
    ensures var db := Apply(s, BulkDelete(node)).db;
      && db.servers == s.db.servers && db.nodes == s.db.nodes
      && (forall a :: a in db.allocations <==>
            a in s.db.allocations
            && (s.db.allocations[a].nodeId != node || s.db.allocations[a].serverId.Some?))
      && (forall a :: a in db.allocations ==> db.allocations[a] == s.db.allocations[a])
    ensures var db := Apply(s, DeleteNode(node)).db;
      db != s.db ==>
      && node !in db.nodes
      && (forall x :: x in db.servers <==> x in s.db.servers && s.db.servers[x].nodeId != node)
      && (forall a :: a in db.allocations <==> a in s.db.allocations && s.db.allocations[a].nodeId != node)
  {
  }

  /** An update of a server moves what is committed on its node by exactly the difference. */
  lemma UpdateMovesCommitted(s: State, x: Id, memory: nat, disk: nat)
    requires x in s.db.servers
    ensures var db', row := Apply(s, UpdateServer(x, memory, disk)).db, s.db.servers[x];
      && Committed(db', row.nodeId, Memory) - memory == Committed(s.db, row.nodeId, Memory) - row.memory
      && Committed(db', row.nodeId, Disk) - disk == Committed(s.db, row.nodeId, Disk) - row.disk
      && db'.servers - {x} == s.db.servers - {x} && db'.nodes == s.db.nodes && db'.allocations == s.db.allocations
  {
    UpdateMoves(s, x, memory, disk, Memory);
    UpdateMoves(s, x, memory, disk, Disk);
  }

  lemma UpdateMoves(s: State, x: Id, memory: nat, disk: nat, r: Resource)
    requires x in s.db.servers
    ensures var db', row := Apply(s, UpdateServer(x, memory, disk)).db, s.db.servers[x];
      Committed(db', row.nodeId, r) == Committed(s.db, row.nodeId, r) - Amount(row, r) + Amount(db'.servers[x], r)
  {
    var db', node := Apply(s, UpdateServer(x, memory, disk)).db, s.db.servers[x].nodeId;
    var before, after := CommittedRows(s.db, node, r), CommittedRows(db', node, r);
    SumSplit(before, x);
    assert after == before[x := Amount(db'.servers[x], r)];
    SumUpdate(before, x, Amount(db'.servers[x], r));
  }

  /** An allocation is added exactly when its id is new, its node is there and nothing has its endpoint; it belongs to
      nobody. */
  lemma AllocationIsAddedIff(s: State, id: Id, node: Id, ip: string, port: int)
    requires id !in s.db.allocations
    ensures var allocations := Apply(s, AddAllocation(id, node, ip, port)).db.allocations;
      && (id in allocations <==>
            && id !in s.issued && node in s.db.nodes
            && forall a :: a in s.db.allocations ==>
                 s.db.allocations[a].nodeId != node || s.db.allocations[a].ip != ip || s.db.allocations[a].port != port)
      && allocations - {id} == s.db.allocations
      && (id in allocations ==> allocations[id] == Allocation(node, ip, port, None))
  {
  }

  // ------------------------------------------------------------------------------------------------
  // Histories.

  /** The rows before the k-th event of a run from the empty database. */
  ghost function Before(events: seq<Event>, k: nat): State
    requires k <= |events|
  {
    Run(EMPTY, events[..k])
  }

  /** The k-th event makes `t` a create that has read its node. */
  ghost predicate ReadsNode(events: seq<Event>, k: int, t: Id, dto: CreateDto, node: Node) {
    && 0 <= k < |events| && events[k] == StartCreate(t, dto)
    && var db := Before(events, k).db; dto.nodeId in db.nodes && db.nodes[dto.nodeId] == node
  }

  /** At the k-th event the allocation is there, on the node, and assigned to nobody. */
  ghost predicate ReadsAllocation(events: seq<Event>, k: int, t: Id, dto: CreateDto) {
    && 0 <= k < |events| && events[k] == ReadAllocation(t)
    && var allocations := Before(events, k).db.allocations;
       && dto.allocationId in allocations
       && allocations[dto.allocationId].nodeId == dto.nodeId && allocations[dto.allocationId].serverId == None
  }

  /** At the k-th event what is committed plus the request fits the node. */
  ghost predicate ChecksCapacity(events: seq<Event>, k: int, t: Id, dto: CreateDto, node: Node) {
    && 0 <= k < |events| && events[k] == CheckCapacity(t)
    && var db := Before(events, k).db;
       && 100 * (Committed(db, dto.nodeId, Memory) + dto.memory) <= node.memory * (100 + node.memoryOverallocate)
       && 100 * (Committed(db, dto.nodeId, Disk) + dto.disk) <= node.disk * (100 + node.diskOverallocate)
  }

  lemma Shorter(events: seq<Event>)
    requires events != []
    ensures var n := |events| - 1;
      Run(EMPTY, events) == Apply(Run(EMPTY, events[..n]), events[n]) && Before(events, n) == Run(EMPTY, events[..n])
  {
    FoldInit(Apply, EMPTY, events);
  }

  lemma SamePrefix(events: seq<Event>, n: nat, k: nat)
    requires k <= n <= |events|
    ensures Before(events[..n], k) == Before(events, k)
  {
    assert events[..n][..k] == events[..k];
  }

  lemma {:induction false} NodeWasRead(events: seq<Event>, t: Id) returns (k: nat)
    requires t in Run(EMPTY, events).tasks && Run(EMPTY, events).tasks[t].NodeRead?
    ensures var task := Run(EMPTY, events).tasks[t]; ReadsNode(events, k, t, task.dto, task.node)
    decreases |events|
  {
    var n, task := |events| - 1, Run(EMPTY, events).tasks[t];
    Shorter(events);
    var s := Run(EMPTY, events[..n]);
    if t in s.tasks && s.tasks[t] == task {
      k := NodeWasRead(events[..n], t);
      SamePrefix(events, n, k);
    } else {
      OnlyChecksAdvance(s, events[n], t);
      k := n;
    }
  }

  lemma {:induction false} AllocationWasRead(events: seq<Event>, t: Id) returns (i: nat, k: nat)
    requires t in Run(EMPTY, events).tasks && Run(EMPTY, events).tasks[t].AllocationRead?
    ensures var task := Run(EMPTY, events).tasks[t];
      i < k && ReadsNode(events, i, t, task.dto, task.node) && ReadsAllocation(events, k, t, task.dto)
    decreases |events|
  {
    var n, task := |events| - 1, Run(EMPTY, events).tasks[t];
    Shorter(events);
    var s := Run(EMPTY, events[..n]);
    if t in s.tasks && s.tasks[t] == task {
      i, k := AllocationWasRead(events[..n], t);
      SamePrefix(events, n, k);
    } else {
      OnlyChecksAdvance(s, events[n], t);
      AllocationCheckPassesIff(s, t);
      i := NodeWasRead(events[..n], t);
      k := n;
    }
    SamePrefix(events, n, i);
  }

  lemma {:induction false} CapacityWasChecked(events: seq<Event>, t: Id) returns (i: nat, j: nat, k: nat, node: Node)
    requires t in Run(EMPTY, events).tasks && Run(EMPTY, events).tasks[t].Checked?
    ensures var dto := Run(EMPTY, events).tasks[t].dto;
      && i < j < k && ReadsNode(events, i, t, dto, node)
      && ReadsAllocation(events, j, t, dto) && ChecksCapacity(events, k, t, dto, node)
    decreases |events|
  {
    var n, task := |events| - 1, Run(EMPTY, events).tasks[t];
    Shorter(events);
    var s := Run(EMPTY, events[..n]);
    if t in s.tasks && s.tasks[t] == task {
      i, j, k, node := CapacityWasChecked(events[..n], t);
      SamePrefix(events, n, k);
    } else {
      OnlyChecksAdvance(s, events[n], t);
      CapacityCheckPassesIff(s, t);
      node := s.tasks[t].node;
      i, j := AllocationWasRead(events[..n], t);
      k := n;
    }
    SamePrefix(events, n, i);
    SamePrefix(events, n, j);
  }

  /** The k-th event commits the server x with these columns. */
  ghost predicate Creates(events: seq<Event>, k: int, t: Id, x: Id, dto: CreateDto) {
    && 0 <= k < |events| && events[k] == Commit(t, x)
    && x !in Before(events, k).db.servers
    && var servers := Before(events, k + 1).db.servers;
       x in servers && servers[x] == Server(dto.nodeId, dto.allocationId, dto.memory, dto.disk)
  }

  /** Only a commit adds a server, and only of a checked create. */
  lemma OnlyCommitsAdd(s: State, e: Event, x: Id)
    requires x !in s.db.servers && x in Apply(s, e).db.servers
    ensures e.Commit? && e.id == x && e.task in s.tasks && s.tasks[e.task].Checked?
    ensures var dto := s.tasks[e.task].dto;
      Apply(s, e).db.servers[x] == Server(dto.nodeId, dto.allocationId, dto.memory, dto.disk)
  {
  }

  lemma {:induction false} ServerWasCreated(events: seq<Event>, x: Id) returns (k: nat, t: Id, dto: CreateDto)
    requires x in Run(EMPTY, events).db.servers
    ensures Creates(events, k, t, x, dto) && t in Before(events, k).tasks
    ensures Before(events, k).tasks[t] == Checked(dto)
    decreases |events|
  {
    var n := |events| - 1;
    Shorter(events);
    var s := Run(EMPTY, events[..n]);
    if x in s.db.servers {
      k, t, dto := ServerWasCreated(events[..n], x);
      SamePrefix(events, n, k);
      SamePrefix(events, n, k + 1);
    } else {
      OnlyCommitsAdd(s, events[n], x);
      k, t := n, events[n].task;
      dto := s.tasks[t].dto;
      assert events[..n + 1] == events;
    }
  }

  /** MAIN RESULT. Behind every live server of every run stand, in this order, a load of its node, a read that found
      its allocation on that node and assigned to nobody, an aggregate that left room for its memory and its disk on
      the node as loaded, and the commit of its columns. */
  lemma EveryServerPassedItsChecks(events: seq<Event>, x: Id)
    returns (t: Id, dto: CreateDto, node: Node, i: nat, j: nat, k: nat, l: nat)
    requires x in Run(EMPTY, events).db.servers
    ensures i < j < k < l
    ensures ReadsNode(events, i, t, dto, node) && ReadsAllocation(events, j, t, dto)
    ensures ChecksCapacity(events, k, t, dto, node) && Creates(events, l, t, x, dto)
  {
    l, t, dto := ServerWasCreated(events, x);
    i, j, k, node := CapacityWasChecked(events[..l], t);
    SamePrefix(events, l, i);
    SamePrefix(events, l, j);
    SamePrefix(events, l, k);
  }
}

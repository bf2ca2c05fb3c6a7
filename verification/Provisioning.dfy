/** Server provisioning: the rows of the panel database, the transactions that change them, and the
    interleaving of the requests that run those transactions. A request awaits between its reads and its
    writes, so every await is a point at which another request may run. */
module Provisioning {
  import opened Common
  import opened Runs

  type Id = nat

  datatype Node = Node(memory: nat, memoryOverallocate: int, disk: nat, diskOverallocate: int)

  datatype Server = Server(nodeId: Id, allocationId: Id, memory: nat, disk: nat)

  datatype Allocation = Allocation(nodeId: Id, ip: string, port: int, serverId: Option<Id>)

  /** The part of CreateServerDto that reaches the rows modelled here. */
  datatype CreateDto = CreateDto(nodeId: Id, allocationId: Id, memory: nat, disk: nat)

  datatype Db = Db(nodes: map<Id, Node>, servers: map<Id, Server>, allocations: map<Id, Allocation>)

  datatype Refusal =
    | NodeNotFound | AllocationNotFound | WrongNode | AlreadyAssigned
    | NotEnoughMemory | NotEnoughDisk | ConstraintViolation | ServerNotFound

  // ------------------------------------------------------------------------------------------------
  // Transactions: what one database round trip reads or does to the rows.

  datatype Resource = Memory | Disk

  function Amount(s: Server, r: Resource): nat {
    if r == Memory then s.memory else s.disk
  }

  function Requested(dto: CreateDto, r: Resource): nat {
    if r == Memory then dto.memory else dto.disk
  }

  /** A hundred times the over-allocated capacity of a node, which keeps the percentage exact. */
  function Limit(n: Node, r: Resource): int {
    if r == Memory then n.memory * (100 + n.memoryOverallocate) else n.disk * (100 + n.diskOverallocate)
  }

  function CommittedRows(db: Db, node: Id, r: Resource): map<Id, nat> {
    map x | x in db.servers && db.servers[x].nodeId == node :: Amount(db.servers[x], r)
  }

  /** The aggregate the capacity check asks the database for. */
  ghost function Committed(db: Db, node: Id, r: Resource): nat {
    Sum(CommittedRows(db, node, r))
  }

  function AllocationRefusal(db: Db, dto: CreateDto): Option<Refusal> {
    if dto.allocationId !in db.allocations then Some(AllocationNotFound)
    else if db.allocations[dto.allocationId].nodeId != dto.nodeId then Some(WrongNode)
    else if db.allocations[dto.allocationId].serverId.Some? then Some(AlreadyAssigned)
    else None
  }

  function CapacityRefusal(node: Node, memory: nat, disk: nat, dto: CreateDto): Option<Refusal> {
    if 100 * (memory + dto.memory) > Limit(node, Memory) then Some(NotEnoughMemory)
    else if 100 * (disk + dto.disk) > Limit(node, Disk) then Some(NotEnoughDisk)
    else None
  }

  /** The unique index on allocationId and the foreign key on nodeId. */
  predicate MayInsert(db: Db, row: Server) {
    && row.nodeId in db.nodes
    && forall x :: x in db.servers ==> db.servers[x].allocationId != row.allocationId
  }

  function Row(dto: CreateDto): Server {
    Server(dto.nodeId, dto.allocationId, dto.memory, dto.disk)
  }

  /** The transaction of create: insert the server, then point the allocation at it. An UPDATE that finds no
      row succeeds without effect. */
  function CommitCreate(db: Db, dto: CreateDto, id: Id): Option<Db> {
    if !MayInsert(db, Row(dto)) then None
    else
      var inserted := db.(servers := db.servers[id := Row(dto)]);
      Some(SetServerId(inserted, dto.allocationId, Some(id)))
  }

  /** UPDATE allocations SET serverId = v WHERE id = a. */
  function SetServerId(db: Db, a: Id, v: Option<Id>): Db {
    if a in db.allocations
    then db.(allocations := db.allocations[a := db.allocations[a].(serverId := v)])
    else db
  }

  predicate Names(db: Db, a: Id, server: Id) {
    a in db.allocations && db.allocations[a].serverId == Some(server)
  }

  predicate IsNamed(db: Db, server: Id) {
    exists a :: a in db.allocations && Names(db, a, server)
  }

  /** DELETE FROM servers: refused by the foreign key while an allocation names the row. */
  function RemoveServer(db: Db, server: Id): Option<Db> {
    if IsNamed(db, server) then None else Some(db.(servers := db.servers - {server}))
  }

  /** DELETE FROM users, cascading to the servers the user owns: refused while an allocation names one of them. */
  function RemoveServers(db: Db, owned: set<Id>): Option<Db> {
    if exists x :: x in owned && IsNamed(db, x) then None else Some(db.(servers := db.servers - owned))
  }

  function NodeServers(db: Db, node: Id): set<Id> {
    set x | x in db.servers && db.servers[x].nodeId == node
  }

  function NodeAllocations(db: Db, node: Id): set<Id> {
    set a | a in db.allocations && db.allocations[a].nodeId == node
  }

  /** DELETE FROM nodes, cascading to servers and allocations; refused if a surviving allocation would name a
      removed server. */
  function RemoveNode(db: Db, node: Id): Option<Db> {
    var rest := db.allocations - NodeAllocations(db, node);
    if exists a :: a in rest && rest[a].serverId.Some? && rest[a].serverId.value in NodeServers(db, node) then None
    else Some(Db(db.nodes - {node}, db.servers - NodeServers(db, node), rest))
  }

  function Unassigned(db: Db, node: Id): set<Id> {
    set a | a in db.allocations && db.allocations[a].nodeId == node && db.allocations[a].serverId.None?
  }

  predicate FreeEndpoint(db: Db, node: Id, ip: string, port: int) {
    forall a :: a in db.allocations ==>
      !(db.allocations[a].nodeId == node && db.allocations[a].ip == ip && db.allocations[a].port == port)
  }

  // ------------------------------------------------------------------------------------------------
  // The protocol: requests in flight, and one event per await.

  datatype Task =
    | NodeRead(dto: CreateDto, node: Node)
    | AllocationRead(dto: CreateDto, node: Node)
    | Checked(dto: CreateDto)
    | DeleteRead(server: Id, found: Option<Id>)
    | Cleared(server: Id)
    | AllocationDeleteRead(allocation: Id)

  /** `issued` holds every row id ever generated; ids are uuids and do not come back. */
  datatype State = State(db: Db, tasks: map<Id, Task>, issued: set<Id>)

  datatype Event =
    | StartCreate(task: Id, dto: CreateDto)
    | ReadAllocation(task: Id)
    | CheckCapacity(task: Id)
    | Commit(task: Id, id: Id)
    | Abort(task: Id)
    | StartDelete(task: Id, server: Id, found: Option<Id>)
    | Clear(task: Id)
    | Remove(task: Id)
    | UpdateServer(server: Id, memory: nat, disk: nat)
    | AddAllocation(id: Id, nodeId: Id, ip: string, port: int)
    | StartAllocationDelete(task: Id, allocation: Id)
    | FinishAllocationDelete(task: Id)
    | BulkDelete(nodeId: Id)
    | AddNode(id: Id, node: Node)
    | EditNode(id: Id, node: Node)
    | DeleteNode(id: Id)
    | RemoveUser(owned: set<Id>)

  ghost const EMPTY := State(Db(map[], map[], map[]), map[], {})

  function Finish(s: State, task: Id): State {
    s.(tasks := s.tasks - {task})
  }

  /** Continues a request with `t`, or ends it when `refusal` says that it threw. */
  function Continue(s: State, task: Id, refusal: Option<Refusal>, t: Task): State {
    if refusal.Some? then Finish(s, task) else s.(tasks := s.tasks[task := t])
  }

  /** Ends a request that ran a transaction; a refused transaction leaves the rows alone. */
  function FinishWith(s: State, task: Id, db: Option<Db>): State {
    if db.Some? then Finish(s, task).(db := db.value) else Finish(s, task)
  }

  /** The relation TypeORM loads as server.allocation. */
  predicate Finds(db: Db, server: Id, found: Option<Id>) {
    if found.Some? then Names(db, found.value, server) else !IsNamed(db, server)
  }

  /** The state after one event. An event that cannot happen in `s` leaves it as it is. */
  ghost function Apply(s: State, e: Event): State {
    match e
    case StartCreate(t, dto) =>
      if t in s.tasks || dto.nodeId !in s.db.nodes then s
      else s.(tasks := s.tasks[t := NodeRead(dto, s.db.nodes[dto.nodeId])])
    case ReadAllocation(t) =>
      if t !in s.tasks || !s.tasks[t].NodeRead? then s
      else
        var dto := s.tasks[t].dto;
        Continue(s, t, AllocationRefusal(s.db, dto), AllocationRead(dto, s.tasks[t].node))
    case CheckCapacity(t) =>
      if t !in s.tasks || !s.tasks[t].AllocationRead? then s
      else
        var dto := s.tasks[t].dto;
        var memory, disk := Committed(s.db, dto.nodeId, Memory), Committed(s.db, dto.nodeId, Disk);
        Continue(s, t, CapacityRefusal(s.tasks[t].node, memory, disk, dto), Checked(dto))
    case Commit(t, id) =>
      if t !in s.tasks || !s.tasks[t].Checked? || id in s.issued then s
      else FinishWith(s.(issued := s.issued + {id}), t, CommitCreate(s.db, s.tasks[t].dto, id))
    case Abort(t) => Finish(s, t)
    case StartDelete(t, server, found) =>
      if t in s.tasks || server !in s.db.servers || !Finds(s.db, server, found) then s
      else s.(tasks := s.tasks[t := DeleteRead(server, found)])
    case Clear(t) =>
      if t !in s.tasks || !s.tasks[t].DeleteRead? then s
      else
        var DeleteRead(server, found) := s.tasks[t];
        var next := s.(tasks := s.tasks[t := Cleared(server)]);
        if found.Some? then next.(db := SetServerId(s.db, found.value, None)) else next
    case Remove(t) =>
      if t !in s.tasks || !s.tasks[t].Cleared? then s
      else FinishWith(s, t, RemoveServer(s.db, s.tasks[t].server))
    case UpdateServer(server, memory, disk) =>
      if server !in s.db.servers then s
      else
        var row := s.db.servers[server].(memory := memory, disk := disk);
        s.(db := s.db.(servers := s.db.servers[server := row]))
    case AddAllocation(id, node, ip, port) =>
      if id in s.issued || node !in s.db.nodes || !FreeEndpoint(s.db, node, ip, port) then s
      else
        var row := Allocation(node, ip, port, None);
        s.(db := s.db.(allocations := s.db.allocations[id := row]), issued := s.issued + {id})
    case StartAllocationDelete(t, a) =>
      if t in s.tasks || a !in s.db.allocations || s.db.allocations[a].serverId.Some? then s
      else s.(tasks := s.tasks[t := AllocationDeleteRead(a)])
    case FinishAllocationDelete(t) =>
      if t !in s.tasks || !s.tasks[t].AllocationDeleteRead? then s
      else Finish(s, t).(db := s.db.(allocations := s.db.allocations - {s.tasks[t].allocation}))
    case BulkDelete(node) =>
      s.(db := s.db.(allocations := s.db.allocations - Unassigned(s.db, node)))
    case AddNode(id, node) =>
      if id in s.issued then s
      else s.(db := s.db.(nodes := s.db.nodes[id := node]), issued := s.issued + {id})
    case EditNode(id, node) =>
      if id !in s.db.nodes then s else s.(db := s.db.(nodes := s.db.nodes[id := node]))
    case DeleteNode(id) =>
      var db := RemoveNode(s.db, id);
      if db.Some? then s.(db := db.value) else s
    case RemoveUser(owned) =>
      var db := RemoveServers(s.db, owned);
      if db.Some? then s.(db := db.value) else s
  }

  ghost function Run(s: State, events: seq<Event>): State {
    Fold(Apply, s, events)
  }

  // ------------------------------------------------------------------------------------------------
  // Safety over every interleaving.

  /** No two live servers share an allocation. */
  ghost predicate NoSharing(db: Db) {
    forall x, y :: x in db.servers && y in db.servers && x != y ==>
      db.servers[x].allocationId != db.servers[y].allocationId
  }

  /** An allocation that names a server names a live one that owns it, on its own node. */
  ghost predicate NamesAreLive(db: Db) {
    forall a :: a in db.allocations && db.allocations[a].serverId.Some? ==>
      var x := db.allocations[a].serverId.value;
      && x in db.servers
      && db.servers[x].allocationId == a
      && db.servers[x].nodeId == db.allocations[a].nodeId
  }

  ghost predicate DistinctEndpoints(db: Db) {
    forall a, b :: a in db.allocations && b in db.allocations && a != b ==>
      var p, q := db.allocations[a], db.allocations[b];
      !(p.nodeId == q.nodeId && p.ip == q.ip && p.port == q.port)
  }

  ghost predicate Safe(db: Db) {
    NoSharing(db) && NamesAreLive(db) && DistinctEndpoints(db)
  }

  ghost predicate RowsIssued(s: State) {
    && s.db.nodes.Keys <= s.issued
    && s.db.servers.Keys <= s.issued
    && s.db.allocations.Keys <= s.issued
    && RowsRefer(s)
  }

  /** What a request knows about the rows after all the awaits since it read them. */
  ghost predicate TaskKnows(s: State, t: Task) {
    match t
    case NodeRead(dto, _) => dto.nodeId in s.issued
    case AllocationRead(dto, _) => dto.nodeId in s.issued && StillOnNode(s, dto)
    case Checked(dto) => dto.nodeId in s.issued && StillOnNode(s, dto)
    case DeleteRead(x, found) =>
      && x in s.issued
      && (if found.Some?
          then found.value in s.issued && (x in s.db.servers ==> s.db.servers[x].allocationId == found.value)
          else !IsNamed(s.db, x))
    case Cleared(x) => x in s.issued && !IsNamed(s.db, x)
    case AllocationDeleteRead(_) => true
  }

  ghost predicate StillOnNode(s: State, dto: CreateDto) {
    && dto.allocationId in s.issued
    && (dto.allocationId in s.db.allocations ==> s.db.allocations[dto.allocationId].nodeId == dto.nodeId)
  }

  ghost predicate Inv(s: State) {
    && Safe(s.db)
    && RowsIssued(s)
    && forall t :: t in s.tasks ==> TaskKnows(s, s.tasks[t])
  }

  lemma ApplyKeepsNoSharing(s: State, e: Event)
    requires Inv(s)
    ensures NoSharing(Apply(s, e).db)
  {
  }

  lemma CommitKeepsNames(db: Db, dto: CreateDto, id: Id)
    requires NamesAreLive(db) && id !in db.servers
    requires CommitCreate(db, dto, id).Some?
    requires dto.allocationId in db.allocations ==> db.allocations[dto.allocationId].nodeId == dto.nodeId
    ensures NamesAreLive(CommitCreate(db, dto, id).value)
  {
  }

  lemma ApplyKeepsNames(s: State, e: Event)
    requires Inv(s)
    ensures NamesAreLive(Apply(s, e).db)
  {
    if e.Commit? && e.task in s.tasks && s.tasks[e.task].Checked? && e.id !in s.issued {
      var dto := s.tasks[e.task].dto;
      assert TaskKnows(s, s.tasks[e.task]);
      if CommitCreate(s.db, dto, e.id).Some? {
        CommitKeepsNames(s.db, dto, e.id);
      }
    }
  }

  lemma ApplyKeepsEndpoints(s: State, e: Event)
    requires Inv(s)
    ensures DistinctEndpoints(Apply(s, e).db)
  {
  }

  lemma ApplyKeepsIssued(s: State, e: Event)
    requires RowsIssued(s)
    ensures var s' := Apply(s, e);
            && s'.db.nodes.Keys <= s'.issued && s'.db.servers.Keys <= s'.issued
            && s'.db.allocations.Keys <= s'.issued
  {
  }

  ghost predicate RowsRefer(s: State) {
    && (forall x :: x in s.db.servers ==> s.db.servers[x].nodeId in s.db.nodes)
    && (forall x :: x in s.db.servers ==> s.db.servers[x].allocationId in s.issued)
    && (forall a :: a in s.db.allocations ==> s.db.allocations[a].nodeId in s.db.nodes)
  }

  lemma CommitKeepsRows(s: State, t: Id, id: Id)
    requires RowsIssued(s)
    requires t in s.tasks && s.tasks[t].Checked? ==> s.tasks[t].dto.allocationId in s.issued
    ensures RowsRefer(Apply(s, Commit(t, id)))
  {
  }

  lemma CascadeKeepsRows(s: State, node: Id)
    requires RowsIssued(s)
    ensures RowsRefer(Apply(s, DeleteNode(node)))
  {
  }

  lemma PlainEventKeepsRows(s: State, e: Event)
    requires RowsIssued(s) && !e.Commit? && !e.DeleteNode?
    ensures RowsRefer(Apply(s, e))
  {
  }

  lemma ApplyKeepsRows(s: State, e: Event)
    requires Inv(s)
    ensures RowsIssued(Apply(s, e))
  {
    ApplyKeepsIssued(s, e);
    if e.Commit? {
      if e.task in s.tasks && s.tasks[e.task].Checked? {
        assert TaskKnows(s, s.tasks[e.task]);
      }
      CommitKeepsRows(s, e.task, e.id);
    } else if e.DeleteNode? {
      CascadeKeepsRows(s, e.id);
    } else {
      PlainEventKeepsRows(s, e);
    }
  }

  /** What no event ever does to rows whose ids were issued before it: bring them back, move an allocation to
      another node, change the allocationId of a server, or make an allocation name an old server. */
  ghost predicate Evolves(s: State, s': State) {
    s.issued <= s'.issued && AllocationsEvolve(s, s') && ServersEvolve(s, s') && NamesEvolve(s, s')
  }

  ghost predicate AllocationsEvolve(s: State, s': State) {
    forall a :: a in s'.db.allocations && a in s.issued ==>
      a in s.db.allocations && s'.db.allocations[a].nodeId == s.db.allocations[a].nodeId
  }

  ghost predicate ServersEvolve(s: State, s': State) {
    forall x :: x in s'.db.servers && x in s.issued ==>
      x in s.db.servers && s'.db.servers[x].allocationId == s.db.servers[x].allocationId
  }

  ghost predicate NamesEvolve(s: State, s': State) {
    forall a :: a in s'.db.allocations && s'.db.allocations[a].serverId.Some? ==>
      || s'.db.allocations[a].serverId.value !in s.issued
      || Names(s.db, a, s'.db.allocations[a].serverId.value)
  }

  lemma ApplyEvolvesAllocations(s: State, e: Event)
    requires RowsIssued(s)
    ensures AllocationsEvolve(s, Apply(s, e))
  {
  }

  lemma ApplyEvolvesServers(s: State, e: Event)
    requires RowsIssued(s)
    ensures ServersEvolve(s, Apply(s, e))
  {
  }

  lemma ApplyEvolvesNames(s: State, e: Event)
    ensures NamesEvolve(s, Apply(s, e))
  {
  }

  lemma ApplyEvolves(s: State, e: Event)
    requires RowsIssued(s)
    ensures Evolves(s, Apply(s, e))
  {
    ApplyEvolvesAllocations(s, e);
    ApplyEvolvesServers(s, e);
    ApplyEvolvesNames(s, e);
  }

  lemma StaysUnnamed(s: State, s': State, x: Id)
    requires Evolves(s, s') && x in s.issued && !IsNamed(s.db, x)
    ensures !IsNamed(s'.db, x)
  {
    forall a | a in s'.db.allocations ensures !Names(s'.db, a, x) {
      assert a in s.db.allocations ==> !Names(s.db, a, x);
    }
  }

  /** After its own clear nothing names the server of a delete. */
  lemma ClearUnnames(s: State, t: Id)
    requires Inv(s) && t in s.tasks && s.tasks[t].DeleteRead?
    ensures !IsNamed(Apply(s, Clear(t)).db, s.tasks[t].server)
  {
    assert TaskKnows(s, s.tasks[t]);
    var x := s.tasks[t].server;
    var s' := Apply(s, Clear(t));
    forall a | a in s'.db.allocations ensures !Names(s'.db, a, x) {
      assert s'.db.allocations[a] == s.db.allocations[a] || s'.db.allocations[a].serverId == None;
    }
  }

  /** What a request knows survives the events of other requests. */
  lemma KnowledgeIsStable(s: State, s': State, k: Task)
    requires Evolves(s, s') && TaskKnows(s, k)
    ensures TaskKnows(s', k)
  {
    match k
    case NodeRead(_, _) =>
    case AllocationRead(_, _) =>
    case Checked(_) =>
    case DeleteRead(x, found) =>
      if found.None? { StaysUnnamed(s, s', x); }
    case Cleared(x) => StaysUnnamed(s, s', x);
    case AllocationDeleteRead(_) =>
  }

  lemma ApplyKeepsTask(s: State, e: Event, t: Id)
    requires Inv(s) && t in Apply(s, e).tasks
    ensures TaskKnows(Apply(s, e), Apply(s, e).tasks[t])
  {
    var s' := Apply(s, e);
    if t in s.tasks && s'.tasks[t] == s.tasks[t] {
      ApplyEvolves(s, e);
      KnowledgeIsStable(s, s', s.tasks[t]);
    } else if e.Clear? {
      assert TaskKnows(s, s.tasks[t]);
      ClearUnnames(s, t);
    } else {
      OwnStepKnows(s, e, t);
    }
  }

  /** A request that has just read the rows knows what it read. */
  lemma OwnStepKnows(s: State, e: Event, t: Id)
    requires Inv(s) && t in Apply(s, e).tasks && !e.Clear?
    requires t !in s.tasks || Apply(s, e).tasks[t] != s.tasks[t]
    ensures TaskKnows(Apply(s, e), Apply(s, e).tasks[t])
  {
    assert t in s.tasks ==> TaskKnows(s, s.tasks[t]);
    assert Apply(s, e).db == s.db && Apply(s, e).issued == s.issued;
  }

  lemma ApplyKeepsInv(s: State, e: Event)
    requires Inv(s)
    ensures Inv(Apply(s, e))
  {
    ApplyKeepsNoSharing(s, e);
    ApplyKeepsNames(s, e);
    ApplyKeepsEndpoints(s, e);
    ApplyKeepsRows(s, e);
    forall t | t in Apply(s, e).tasks ensures TaskKnows(Apply(s, e), Apply(s, e).tasks[t]) {
      ApplyKeepsTask(s, e, t);
    }
  }

  lemma {:induction false} RunKeepsInv(s: State, events: seq<Event>)
    requires Inv(s)
    ensures Inv(Run(s, events))
    decreases |events|
  {
    if events != [] {
      ApplyKeepsInv(s, events[0]);
      RunKeepsInv(Apply(s, events[0]), events[1..]);
    }
  }

  /** MAIN RESULT. In every state of every interleaving no two live servers share an allocation, whatever an
      allocation names is live, owns it and is on its node, and endpoints stay distinct. */
  lemma EveryRunIsSafe(events: seq<Event>)
    ensures Safe(Run(EMPTY, events).db)
  {
    RunKeepsInv(EMPTY, events);
  }

  /** MAIN RESULT. The UPDATE of create has no WHERE on serverId, and the check it relies on was read long
      before; still, whenever the commit goes through, the allocation was naming nobody, and afterwards it names
      the new server (or its row is gone). No other allocation and no other server changes. */
  lemma CommitNeverOverwrites(events: seq<Event>, dto: CreateDto, id: Id)
    requires id !in Run(EMPTY, events).issued
    requires CommitCreate(Run(EMPTY, events).db, dto, id).Some?
    ensures var db := Run(EMPTY, events).db;
            var db' := CommitCreate(db, dto, id).value;
            && (dto.allocationId in db.allocations ==>
                  && db.allocations[dto.allocationId].serverId == None
                  && db'.allocations[dto.allocationId].serverId == Some(id))
            && db'.allocations.Keys == db.allocations.Keys
            && db'.servers - {id} == db.servers
            && forall a :: a in db.allocations && a != dto.allocationId ==> db'.allocations[a] == db.allocations[a]
  {
    RunKeepsInv(EMPTY, events);
    var db := Run(EMPTY, events).db;
    assert (db.servers[id := Row(dto)]) - {id} == db.servers;
  }

  /** MAIN RESULT. The foreign key on serverId never gets in the way: a delete that has cleared its allocation
      removes its row, and removing a node cascades without a violation. */
  lemma ForeignKeyNeverRefuses(events: seq<Event>, task: Id, node: Id)
    ensures var s := Run(EMPTY, events);
            && (task in s.tasks && s.tasks[task].Cleared? ==> RemoveServer(s.db, s.tasks[task].server).Some?)
            && RemoveNode(s.db, node).Some?
  {
    RunKeepsInv(EMPTY, events);
  }

  /** Removing a user is refused exactly when one of the user's servers is named by its allocation, as every server
      normally is. */
  lemma UserRemovalRefusedIff(events: seq<Event>, owned: set<Id>)
    ensures var db := Run(EMPTY, events).db;
      RemoveServers(db, owned) == None <==>
        exists x :: x in owned && x in db.servers && Names(db, db.servers[x].allocationId, x)
  {
    RunKeepsInv(EMPTY, events);
  }

  /** A clear detaches a server other than the one its delete was called for. */
  ghost predicate DetachesAnother(db: Db, server: Id, found: Option<Id>) {
    && found.Some? && found.value in db.allocations
    && db.allocations[found.value].serverId.Some?
    && db.allocations[found.value].serverId.value != server
  }

  /** MAIN RESULT. The clear of delete writes to the allocation it read earlier. It detaches another server
      exactly when the server row of its own delete has meanwhile gone and the allocation is assigned: as long as
      the row is there, the clear touches nobody else. */
  lemma ClearDetachesAnotherIff(events: seq<Event>, task: Id)
    requires task in Run(EMPTY, events).tasks && Run(EMPTY, events).tasks[task].DeleteRead?
    ensures var s := Run(EMPTY, events);
            var DeleteRead(server, found) := s.tasks[task];
            DetachesAnother(s.db, server, found) <==>
              && server !in s.db.servers
              && found.Some? && found.value in s.db.allocations && s.db.allocations[found.value].serverId.Some?
  {
    RunKeepsInv(EMPTY, events);
    assert TaskKnows(Run(EMPTY, events), Run(EMPTY, events).tasks[task]);
  }

  // ------------------------------------------------------------------------------------------------
  // When is a live server named by its allocation?

  predicate Named(db: Db, x: Id) {
    x in db.servers && Names(db, db.servers[x].allocationId, x)
  }

  /** Events that take its allocation from a live server: a clear of a delete that had found the allocation - its own
      delete, or a stale one - and the end of a deletion of the allocation that started while it was unassigned. */
  predicate Unnames(s: State, e: Event, x: Id)
    requires x in s.db.servers
  {
    var a := s.db.servers[x].allocationId;
    || (e.Clear? && e.task in s.tasks && s.tasks[e.task].DeleteRead? && s.tasks[e.task].found == Some(a))
    || (e.FinishAllocationDelete? && e.task in s.tasks && s.tasks[e.task] == AllocationDeleteRead(a))
  }

  lemma NamesAreNotRegained(s: State, e: Event, x: Id)
    requires Inv(s) && x in s.db.servers && Named(Apply(s, e).db, x)
    ensures Named(s.db, x)
  {
    ApplyEvolves(s, e);
  }

  lemma UnnamesTakesAway(s: State, e: Event, x: Id)
    requires x in s.db.servers && Unnames(s, e, x)
    ensures !Named(Apply(s, e).db, x)
  {
  }

  /** A commit inserts another server and leaves the allocation of x alone. */
  lemma CommitKeepsName(db: Db, dto: CreateDto, id: Id, x: Id)
    requires Named(db, x) && id !in db.servers && CommitCreate(db, dto, id).Some?
    ensures Named(CommitCreate(db, dto, id).value, x)
  {
  }

  lemma CascadeKeepsName(db: Db, node: Id, x: Id)
    requires Safe(db) && Named(db, x) && RemoveNode(db, node).Some? && x in RemoveNode(db, node).value.servers
    ensures Named(RemoveNode(db, node).value, x)
  {
  }

  /** Events other than commits and node removals. */
  lemma PlainEventKeepsName(s: State, e: Event, x: Id)
    requires RowsIssued(s) && Named(s.db, x) && !Unnames(s, e, x)
    requires x in Apply(s, e).db.servers && !e.Commit? && !e.DeleteNode?
    ensures Named(Apply(s, e).db, x)
  {
  }

  lemma OthersKeepName(s: State, e: Event, x: Id)
    requires Inv(s) && Named(s.db, x) && !Unnames(s, e, x) && x in Apply(s, e).db.servers
    ensures Named(Apply(s, e).db, x)
  {
    if e.Commit? {
      if e.task in s.tasks && s.tasks[e.task].Checked? && e.id !in s.issued
         && CommitCreate(s.db, s.tasks[e.task].dto, e.id).Some? {
        CommitKeepsName(s.db, s.tasks[e.task].dto, e.id, x);
      }
    } else if e.DeleteNode? {
      if RemoveNode(s.db, e.id).Some? {
        CascadeKeepsName(s.db, e.id, x);
      }
    } else {
      PlainEventKeepsName(s, e, x);
    }
  }

  lemma NamedStep(s: State, e: Event, x: Id)
    requires Inv(s) && x in s.db.servers && x in Apply(s, e).db.servers
    ensures Named(Apply(s, e).db, x) <==> Named(s.db, x) && !Unnames(s, e, x)
  {
    if Named(Apply(s, e).db, x) {
      NamesAreNotRegained(s, e, x);
    }
    if Unnames(s, e, x) {
      UnnamesTakesAway(s, e, x);
    } else if Named(s.db, x) {
      OthersKeepName(s, e, x);
    }
  }

  ghost predicate UnnamedDuring(s: State, events: seq<Event>, x: Id)
    decreases |events|
  {
    && events != [] && x in s.db.servers
    && (Unnames(s, events[0], x) || UnnamedDuring(Apply(s, events[0]), events[1..], x))
  }

  /** A server that is live after a run and was issued before it was live all along. */
  lemma {:induction false} LiveBefore(s: State, events: seq<Event>, x: Id)
    requires Inv(s) && x in s.issued && x in Run(s, events).db.servers
    ensures x in s.db.servers
    decreases |events|
  {
    if events != [] {
      ApplyKeepsInv(s, events[0]);
      ApplyEvolves(s, events[0]);
      LiveBefore(Apply(s, events[0]), events[1..], x);
    }
  }

  lemma {:induction false} NamedIff(s: State, events: seq<Event>, x: Id)
    requires Inv(s) && x in s.db.servers && x in Run(s, events).db.servers
    ensures Named(Run(s, events).db, x) <==> Named(s.db, x) && !UnnamedDuring(s, events, x)
    decreases |events|
  {
    if events != [] {
      var next := Apply(s, events[0]);
      ApplyKeepsInv(s, events[0]);
      ApplyEvolves(s, events[0]);
      LiveBefore(next, events[1..], x);
      NamedStep(s, events[0], x);
      NamedIff(next, events[1..], x);
    }
  }

  /** MAIN RESULT. The converse of safety, for a server that a run has created and that is still live after more
      events: its allocation names it exactly when the allocation row still existed at the commit and none of the later
      events was a clear or an allocation deletion that hits it. */
  lemma LiveServerIsNamedIff(before: seq<Event>, task: Id, id: Id, after: seq<Event>)
    requires var s := Run(EMPTY, before);
      task in s.tasks && s.tasks[task].Checked? && id !in s.issued && CommitCreate(s.db, s.tasks[task].dto, id).Some?
    requires id in Run(Apply(Run(EMPTY, before), Commit(task, id)), after).db.servers
    ensures var s := Run(EMPTY, before);
      var created := Apply(s, Commit(task, id));
      Named(Run(created, after).db, id) <==>
        s.tasks[task].dto.allocationId in s.db.allocations && !UnnamedDuring(created, after, id)
  {
    RunKeepsInv(EMPTY, before);
    ApplyKeepsInv(Run(EMPTY, before), Commit(task, id));
    NamedIff(Apply(Run(EMPTY, before), Commit(task, id)), after, id);
  }

  /** Events that create a server with id `id` from start to commit. */
  function CreateAll(task: Id, dto: CreateDto, id: Id): seq<Event> {
    [StartCreate(task, dto), ReadAllocation(task), CheckCapacity(task), Commit(task, id)]
  }

  /** A create that fits, on a free allocation that no live server holds, runs through when nothing intervenes, and
      adds its row and its assignment to whatever is there. */
  lemma CreateAllSucceeds(s: State, task: Id, dto: CreateDto, id: Id)
    requires dto.nodeId in s.db.nodes && task !in s.tasks && id !in s.issued
    requires AllocationRefusal(s.db, dto) == None && MayInsert(s.db, Row(dto))
    requires CapacityRefusal(
      s.db.nodes[dto.nodeId], Committed(s.db, dto.nodeId, Memory), Committed(s.db, dto.nodeId, Disk), dto) == None
    ensures var s' := Run(s, CreateAll(task, dto, id));
            && s'.db.servers == s.db.servers[id := Row(dto)]
            && s'.db.allocations ==
                 s.db.allocations[dto.allocationId := s.db.allocations[dto.allocationId].(serverId := Some(id))]
            && s'.db.nodes == s.db.nodes && s'.tasks == s.tasks && s'.issued == s.issued + {id}
  {
    var node := s.db.nodes[dto.nodeId];
    var a := Apply(s, StartCreate(task, dto));
    var b := Apply(a, ReadAllocation(task));
    assert b == s.(tasks := s.tasks[task := AllocationRead(dto, node)]);
    var c := Apply(b, CheckCapacity(task));
    assert c == s.(tasks := s.tasks[task := Checked(dto)]);
    var d := Apply(c, Commit(task, id));
    assert d.tasks == s.tasks;
    FoldFour(Apply, s, StartCreate(task, dto), ReadAllocation(task), CheckCapacity(task), Commit(task, id));
  }

  lemma FirstCreateSucceeds(s: State, task: Id, dto: CreateDto, id: Id)
    requires dto.nodeId in s.db.nodes && s.db.servers == map[] && task !in s.tasks && id !in s.issued
    requires AllocationRefusal(s.db, dto) == None
    requires CapacityRefusal(s.db.nodes[dto.nodeId], 0, 0, dto) == None
    ensures var s' := Run(s, CreateAll(task, dto, id));
            && s'.db.servers == map[id := Row(dto)]
            && s'.db.allocations ==
                 s.db.allocations[dto.allocationId := s.db.allocations[dto.allocationId].(serverId := Some(id))]
            && s'.db.nodes == s.db.nodes && s'.tasks == s.tasks && s'.issued == s.issued + {id}
  {
    assert CommittedRows(s.db, dto.nodeId, Memory) == map[] && CommittedRows(s.db, dto.nodeId, Disk) == map[];
    CreateAllSucceeds(s, task, dto, id);
  }

  // ------------------------------------------------------------------------------------------------
  // A create that has passed its checks and finds its allocation free can still be refused. Why?

  /** The commit at position k of the run created x under the name of its allocation, and a later event took the name
      away. */
  ghost predicate LostNameAfter(events: seq<Event>, k: int, x: Id) {
    && 0 <= k < |events| && events[k].Commit? && events[k].id == x
    && x !in Run(EMPTY, events[..k]).db.servers
    && Named(Run(EMPTY, events[..k + 1]).db, x)
    && UnnamedDuring(Run(EMPTY, events[..k + 1]), events[k + 1..], x)
  }

  ghost predicate LostItsName(events: seq<Event>, x: Id) {
    exists k :: LostNameAfter(events, k, x)
  }

  /** Only a commit makes a server live. */
  lemma ComesFromCommit(s: State, e: Event, x: Id)
    requires x !in s.db.servers && x in Apply(s, e).db.servers
    ensures e.Commit? && e.id == x && e.id !in s.issued && e.task in s.tasks && s.tasks[e.task].Checked?
    ensures CommitCreate(s.db, s.tasks[e.task].dto, x).Some?
    ensures Apply(s, e).db == CommitCreate(s.db, s.tasks[e.task].dto, x).value
  {
  }

  /** The position at which a live server became live. */
  lemma {:induction false} BecameLive(events: seq<Event>, x: Id) returns (k: int)
    requires x in Run(EMPTY, events).db.servers
    ensures 0 <= k < |events|
    ensures x !in Run(EMPTY, events[..k]).db.servers && x in Run(EMPTY, events[..k + 1]).db.servers
    decreases |events|
  {
    assert events != [];
    var n := |events| - 1;
    if x in Run(EMPTY, events[..n]).db.servers {
      k := BecameLive(events[..n], x);
      assert events[..n][..k] == events[..k] && events[..n][..k + 1] == events[..k + 1];
    } else {
      k := n;
      assert events[..n + 1] == events;
    }
  }

  /** An issued allocation that is there after a run was there before, and a live server keeps its allocationId. */
  lemma {:induction false} RowsBefore(s: State, events: seq<Event>, x: Id)
    requires Inv(s) && x in s.issued && x in Run(s, events).db.servers
    ensures x in s.db.servers && Run(s, events).db.servers[x].allocationId == s.db.servers[x].allocationId
    ensures Run(s, events).db.servers[x].allocationId in Run(s, events).db.allocations ==>
      s.db.servers[x].allocationId in s.db.allocations
    decreases |events|
  {
    if events != [] {
      ApplyKeepsInv(s, events[0]);
      ApplyEvolves(s, events[0]);
      RowsBefore(Apply(s, events[0]), events[1..], x);
    }
  }

  lemma CommitNamesIfPresent(db: Db, dto: CreateDto, x: Id)
    requires x !in db.servers && CommitCreate(db, dto, x).Some?
    ensures var created := CommitCreate(db, dto, x).value;
      && x in created.servers
      && (created.servers[x].allocationId in created.allocations ==> Named(created, x))
  {
  }

  /** The step that makes x live names it if its allocation is still there at the end, so a later one unnamed it. */
  lemma CreationNames(before: State, e: Event, created: State, rest: seq<Event>, x: Id)
    requires Inv(before) && created == Apply(before, e) && x !in before.db.servers && x in created.db.servers
    requires var db := Run(created, rest).db;
      x in db.servers && db.servers[x].allocationId in db.allocations && !Named(db, x)
    ensures e.Commit? && e.id == x && Named(created.db, x) && UnnamedDuring(created, rest, x)
  {
    ApplyKeepsInv(before, e);
    RowsBefore(created, rest, x);
    ComesFromCommit(before, e, x);
    CommitNamesIfPresent(before.db, before.tasks[e.task].dto, x);
    NamedIff(created, rest, x);
  }

  lemma RunSplit(events: seq<Event>, k: nat)
    requires k < |events|
    ensures Run(EMPTY, events) == Run(Run(EMPTY, events[..k + 1]), events[k + 1..])
    ensures Run(EMPTY, events[..k + 1]) == Apply(Run(EMPTY, events[..k]), events[k])
  {
    assert events == events[..k + 1] + events[k + 1..];
    FoldConcat(Apply, EMPTY, events[..k + 1], events[k + 1..]);
    FoldInit(Apply, EMPTY, events[..k + 1]);
    assert events[..k + 1][..k] == events[..k];
  }

  /** MAIN RESULT. In every run, a live server whose allocation row exists and does not name it had the name when it
      was created and lost it since. */
  lemma UnnamedHasLostItsName(events: seq<Event>, x: Id)
    requires var db := Run(EMPTY, events).db;
      x in db.servers && db.servers[x].allocationId in db.allocations && !Named(db, x)
    ensures LostItsName(events, x)
  {
    var k := BecameLive(events, x);
    RunKeepsInv(EMPTY, events[..k]);
    RunSplit(events, k);
    CreationNames(Run(EMPTY, events[..k]), events[k], Run(EMPTY, events[..k + 1]), events[k + 1..], x);
    assert LostNameAfter(events, k, x);
  }

  /** MAIN RESULT. In every run, a create that has passed its checks and whose allocation is there and names nobody is
      refused at its commit exactly when a live server that was created on this allocation has lost its name. */
  lemma FreeAllocationIsRefusedIff(events: seq<Event>, task: Id, id: Id)
    requires var s := Run(EMPTY, events); task in s.tasks && s.tasks[task].Checked? && id !in s.issued
    requires var s := Run(EMPTY, events);
      var a := s.tasks[task].dto.allocationId;
      a in s.db.allocations && s.db.allocations[a].serverId == None
    ensures var s := Run(EMPTY, events);
      var dto := s.tasks[task].dto;
      CommitCreate(s.db, dto, id) == None <==>
        exists x :: x in s.db.servers && s.db.servers[x].allocationId == dto.allocationId && LostItsName(events, x)
  {
    RunKeepsInv(EMPTY, events);
    var s := Run(EMPTY, events);
    var dto := s.tasks[task].dto;
    assert TaskKnows(s, s.tasks[task]);
    if CommitCreate(s.db, dto, id) == None {
      var x :| x in s.db.servers && s.db.servers[x].allocationId == dto.allocationId;
      UnnamedHasLostItsName(events, x);
    }
  }

  ghost const SETUP: seq<Event> :=
    [AddNode(0, Node(1024, 0, 1024, 0)), AddAllocation(1, 0, "0.0.0.0", 25565)]

  ghost const SMALL := CreateDto(0, 1, 64, 256)

  lemma RunSetup()
    ensures Run(EMPTY, SETUP) ==
      State(Db(map[0 := Node(1024, 0, 1024, 0)], map[], map[1 := Allocation(0, "0.0.0.0", 25565, None)]),
            map[], {0, 1})
  {
    assert SETUP[1..] == [AddAllocation(1, 0, "0.0.0.0", 25565)];
    var s1 := Apply(EMPTY, SETUP[0]);
    assert Run(EMPTY, SETUP) == Run(s1, SETUP[1..]);
    assert Run(Apply(s1, SETUP[1]), []) == Run(s1, SETUP[1..]) by { assert SETUP[1..][1..] == []; }
    assert s1.db.nodes == map[0 := Node(1024, 0, 1024, 0)] && s1.issued == {0};
  }

  ghost const TWO_DELETES: seq<Event> :=
    [StartDelete(11, 2, Some(1)), StartDelete(12, 2, Some(1)), Clear(11), Remove(11)]

  /** Server 2 is created, two deletes of it start, the first finishes, and server 3 takes the allocation. */
  ghost const OVERLAP: seq<Event> :=
    SETUP + (CreateAll(10, SMALL, 2) + (TWO_DELETES + CreateAll(13, SMALL, 3)))

  /** The condition of ClearDetachesAnotherIff is met in a real run: when two deletes of one server overlap, the
      slower one detaches the server that took the allocation in between. */
  lemma OverlappingDeletesDetach()
    ensures var s := Run(EMPTY, OVERLAP);
            && s.tasks == map[12 := DeleteRead(2, Some(1))]
            && 3 in s.db.servers && Names(s.db, 1, 3)
            && DetachesAnother(s.db, 2, Some(1))
            && s.db.nodes == map[0 := Node(1024, 0, 1024, 0)] && s.db.servers == map[3 := Row(SMALL)]
            && s.db.allocations == map[1 := Allocation(0, "0.0.0.0", 25565, Some(3))]
  {
    RunSetup();
    FoldConcat(Apply, EMPTY, SETUP, CreateAll(10, SMALL, 2) + (TWO_DELETES + CreateAll(13, SMALL, 3)));
    OverlapFromSetup(Run(EMPTY, SETUP));
  }

  ghost const RACE: seq<Event> :=
    SETUP + ([StartAllocationDelete(12, 1)] + (CreateAll(10, SMALL, 2) + [FinishAllocationDelete(12)]))

  lemma DeletionEnds(s: State, t: Id, a: Id)
    requires t in s.tasks && s.tasks[t] == AllocationDeleteRead(a)
    ensures Apply(s, FinishAllocationDelete(t)).db == s.db.(allocations := s.db.allocations - {a})
  {
  }

  lemma RaceFromSetup(s: State)
    requires s.db == Db(map[0 := Node(1024, 0, 1024, 0)], map[], map[1 := Allocation(0, "0.0.0.0", 25565, None)])
    requires s.tasks == map[12 := AllocationDeleteRead(1)] && s.issued == {0, 1}
    ensures var s' := Run(s, CreateAll(10, SMALL, 2) + [FinishAllocationDelete(12)]);
            2 in s'.db.servers && s'.db.allocations == map[]
  {
    FirstCreateSucceeds(s, 10, SMALL, 2);
    var created := Run(s, CreateAll(10, SMALL, 2));
    FoldConcat(Apply, s, CreateAll(10, SMALL, 2), [FinishAllocationDelete(12)]);
    FoldHead(Apply, created, FinishAllocationDelete(12), []);
    DeletionEnds(created, 12, 1);
    assert [FinishAllocationDelete(12)] + [] == [FinishAllocationDelete(12)];
  }

  /** An allocation deletion that started before a create took the allocation removes it from the live server. */
  lemma RacingDeletionUnnames()
    ensures var s := Run(EMPTY, RACE);
            2 in s.db.servers && s.db.allocations == map[] && !Named(s.db, 2)
  {
    RunSetup();
    var s0, rest := Run(EMPTY, SETUP), CreateAll(10, SMALL, 2) + [FinishAllocationDelete(12)];
    FoldConcat(Apply, EMPTY, SETUP, [StartAllocationDelete(12, 1)] + rest);
    FoldHead(Apply, s0, StartAllocationDelete(12, 1), rest);
    RaceFromSetup(Apply(s0, StartAllocationDelete(12, 1)));
  }

  /** The rest of the stale delete, and a further create up to its commit. */
  ghost const FOURTH: seq<Event> := [Remove(12), StartCreate(14, SMALL), ReadAllocation(14), CheckCapacity(14)]

  lemma OneServer(db: Db)
    requires db.servers == map[3 := Row(SMALL)]
    ensures Committed(db, 0, Memory) == 64 && Committed(db, 0, Disk) == 256
  {
    var memory, disk := CommittedRows(db, 0, Memory), CommittedRows(db, 0, Disk);
    assert memory == map[3 := 64] && disk == map[3 := 256];
    SumSplit(memory, 3);
    SumSplit(disk, 3);
    assert memory - {3} == map[] && disk - {3} == map[];
  }

  lemma ChecksPass(s: State)
    requires s.db.nodes == map[0 := Node(1024, 0, 1024, 0)] && s.db.servers == map[3 := Row(SMALL)] && s.tasks == map[]
    requires s.db.allocations == map[1 := Allocation(0, "0.0.0.0", 25565, None)]
    ensures Apply(Apply(Apply(s, StartCreate(14, SMALL)), ReadAllocation(14)), CheckCapacity(14))
         == s.(tasks := map[14 := Checked(SMALL)])
  {
    var node := Node(1024, 0, 1024, 0);
    var a := Apply(s, StartCreate(14, SMALL));
    assert a == s.(tasks := map[14 := NodeRead(SMALL, node)]);
    var b := Apply(a, ReadAllocation(14));
    assert b == s.(tasks := map[14 := AllocationRead(SMALL, node)]);
    OneServer(b.db);
  }

  lemma StaleDelete(s: State)
    requires s.tasks == map[12 := DeleteRead(2, Some(1))] && s.db.servers == map[3 := Row(SMALL)]
    requires s.db.allocations == map[1 := Allocation(0, "0.0.0.0", 25565, Some(3))]
    ensures var t := Apply(Apply(s, Clear(12)), Remove(12));
      t == State(s.db.(allocations := map[1 := Allocation(0, "0.0.0.0", 25565, None)]), map[], s.issued)
  {
    var c := Apply(s, Clear(12));
    assert c.db == s.db.(allocations := map[1 := Allocation(0, "0.0.0.0", 25565, None)]);
    assert c.tasks == map[12 := Cleared(2)] && !IsNamed(c.db, 2);
    assert c.db.servers - {2} == c.db.servers;
  }

  /** The refusal happens: after the stale delete the allocation is free, a create passes all its checks, and server 3,
      which still holds the allocation, makes the commit fail. */
  lemma FourthCreateIsRefused(id: Id)
    ensures var s := Run(EMPTY, OVERLAP + ([Clear(12)] + FOURTH));
      && s.tasks == map[14 := Checked(SMALL)]
      && s.db.allocations == map[1 := Allocation(0, "0.0.0.0", 25565, None)]
      && s.db.servers == map[3 := Row(SMALL)]
      && CommitCreate(s.db, SMALL, id) == None
  {
    OverlappingDeletesDetach();
    var s := Run(EMPTY, OVERLAP);
    FoldConcat(Apply, EMPTY, OVERLAP, [Clear(12)] + FOURTH);
    FoldHead(Apply, s, Clear(12), FOURTH);
    FoldFour(Apply, Apply(s, Clear(12)), Remove(12), StartCreate(14, SMALL), ReadAllocation(14), CheckCapacity(14));
    StaleDelete(s);
    ChecksPass(Apply(Apply(s, Clear(12)), Remove(12)));
    assert Row(SMALL).allocationId == 1 && 3 in s.db.servers;
  }

  lemma OverlapEnd(s: State)
    requires s.db == Db(map[0 := Node(1024, 0, 1024, 0)], map[], map[1 := Allocation(0, "0.0.0.0", 25565, None)])
    requires s.tasks == map[12 := DeleteRead(2, Some(1))] && 3 !in s.issued
    ensures var s' := Run(s, CreateAll(13, SMALL, 3));
            && s'.tasks == map[12 := DeleteRead(2, Some(1))]
            && s'.db.nodes == map[0 := Node(1024, 0, 1024, 0)] && s'.db.servers == map[3 := Row(SMALL)]
            && s'.db.allocations == map[1 := Allocation(0, "0.0.0.0", 25565, Some(3))]
  {
    FirstCreateSucceeds(s, 13, SMALL, 3);
  }

  lemma OverlapFromSetup(s0: State)
    requires s0.db == Db(map[0 := Node(1024, 0, 1024, 0)], map[], map[1 := Allocation(0, "0.0.0.0", 25565, None)])
    requires s0.tasks == map[] && s0.issued == {0, 1}
    ensures var s := Run(s0, CreateAll(10, SMALL, 2) + (TWO_DELETES + CreateAll(13, SMALL, 3)));
            && s.tasks == map[12 := DeleteRead(2, Some(1))]
            && s.db.nodes == map[0 := Node(1024, 0, 1024, 0)] && s.db.servers == map[3 := Row(SMALL)]
            && s.db.allocations == map[1 := Allocation(0, "0.0.0.0", 25565, Some(3))]
  {
    FirstCreateSucceeds(s0, 10, SMALL, 2);
    var s1 := Run(s0, CreateAll(10, SMALL, 2));
    FoldConcat(Apply, s0, CreateAll(10, SMALL, 2), TWO_DELETES + CreateAll(13, SMALL, 3));
    OverlapMiddle(s1);
    FoldConcat(Apply, s1, TWO_DELETES, CreateAll(13, SMALL, 3));
    OverlapEnd(Run(s1, TWO_DELETES));
  }

  lemma TwoStarts(s: State)
    requires s.tasks == map[] && 2 in s.db.servers && Names(s.db, 1, 2)
    ensures Apply(Apply(s, StartDelete(11, 2, Some(1))), StartDelete(12, 2, Some(1)))
         == s.(tasks := map[11 := DeleteRead(2, Some(1)), 12 := DeleteRead(2, Some(1))])
  {
    assert Apply(s, StartDelete(11, 2, Some(1))) == s.(tasks := map[11 := DeleteRead(2, Some(1))]);
  }

  lemma ClearAndRemove(s: State)
    requires s.tasks == map[11 := DeleteRead(2, Some(1)), 12 := DeleteRead(2, Some(1))]
    requires s.db.servers == map[2 := Row(SMALL)]
    requires s.db.allocations == map[1 := Allocation(0, "0.0.0.0", 25565, Some(2))]
    ensures Apply(Apply(s, Clear(11)), Remove(11))
         == State(Db(s.db.nodes, map[], map[1 := Allocation(0, "0.0.0.0", 25565, None)]),
                  map[12 := DeleteRead(2, Some(1))], s.issued)
  {
    var c := Apply(s, Clear(11));
    assert c.db.allocations == map[1 := Allocation(0, "0.0.0.0", 25565, None)];
    assert c.tasks == map[11 := Cleared(2), 12 := DeleteRead(2, Some(1))];
    assert !IsNamed(c.db, 2);
  }

  lemma OverlapMiddle(s: State)
    requires s.tasks == map[] && s.db.servers == map[2 := Row(SMALL)]
    requires s.db.allocations == map[1 := Allocation(0, "0.0.0.0", 25565, Some(2))]
    ensures Run(s, TWO_DELETES)
         == State(Db(s.db.nodes, map[], map[1 := Allocation(0, "0.0.0.0", 25565, None)]),
                  map[12 := DeleteRead(2, Some(1))], s.issued)
  {
    FoldFour(Apply, s, StartDelete(11, 2, Some(1)), StartDelete(12, 2, Some(1)), Clear(11), Remove(11));
    TwoStarts(s);
    ClearAndRemove(Apply(Apply(s, StartDelete(11, 2, Some(1))), StartDelete(12, 2, Some(1))));
  }
}

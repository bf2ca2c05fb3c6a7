/** The database round trips of ServersService, as methods on the rows. Provisioning says what each of them does
    to the rows and what every interleaving of them keeps. */
module ServersService {
  import opened Common
  import opened Provisioning

  class ServersService {
    var nodes: map<Id, Node>
    var servers: map<Id, Server>
    var allocations: map<Id, Allocation>

    constructor ()
      ensures Rows() == EMPTY.db
    {
      nodes, servers, allocations := map[], map[], map[];
    }

    ghost function Rows(): Db
      reads this
    {
      Db(nodes, servers, allocations)
    }

    method FindAllocation(dto: CreateDto) returns (refusal: Option<Refusal>)
      ensures refusal == AllocationRefusal(Rows(), dto)
      ensures refusal ==
        if dto.allocationId !in allocations then Some(AllocationNotFound)
        else if allocations[dto.allocationId].nodeId != dto.nodeId then Some(WrongNode)
        else if allocations[dto.allocationId].serverId != None then Some(AlreadyAssigned)
        else None
    {
      if dto.allocationId !in allocations {
        return Some(AllocationNotFound);
      }
      var allocation := allocations[dto.allocationId];
      if allocation.nodeId != dto.nodeId {
        return Some(WrongNode);
      }
      if allocation.serverId.Some? {
        return Some(AlreadyAssigned);
      }
      return None;
    }

    /** SELECT COALESCE(SUM(memory), 0), COALESCE(SUM(disk), 0) ... WHERE nodeId = node. */
    method SumCommitted(node: Id) returns (memory: nat, disk: nat)
      ensures memory == Committed(Rows(), node, Memory)
      ensures disk == Committed(Rows(), node, Disk)
    {
      memory, disk := 0, 0;
      var rest := set x | x in servers && servers[x].nodeId == node;
      ghost var byMemory, byDisk := CommittedRows(Rows(), node, Memory), CommittedRows(Rows(), node, Disk);
      while rest != {}
        invariant byMemory.Keys == byDisk.Keys == rest <= servers.Keys
        invariant forall x :: x in rest ==> byMemory[x] == servers[x].memory && byDisk[x] == servers[x].disk
        invariant memory + Sum(byMemory) == Committed(Rows(), node, Memory)
        invariant disk + Sum(byDisk) == Committed(Rows(), node, Disk)
        decreases rest
      {
        var x :| x in rest;
        SumSplit(byMemory, x);
        SumSplit(byDisk, x);
        memory, disk := memory + servers[x].memory, disk + servers[x].disk;
        byMemory, byDisk := byMemory - {x}, byDisk - {x};
        rest := rest - {x};
      }
    }

    method CheckCapacity(dto: CreateDto, node: Node) returns (refusal: Option<Refusal>)
      ensures refusal == CapacityRefusal(
        node, Committed(Rows(), dto.nodeId, Memory), Committed(Rows(), dto.nodeId, Disk), dto)
      ensures refusal == Some(NotEnoughMemory) <==>
        100 * (Committed(Rows(), dto.nodeId, Memory) + dto.memory) > node.memory * (100 + node.memoryOverallocate)
      ensures refusal == Some(NotEnoughDisk) <==>
        && refusal != Some(NotEnoughMemory)
        && 100 * (Committed(Rows(), dto.nodeId, Disk) + dto.disk) > node.disk * (100 + node.diskOverallocate)
      ensures refusal in {Some(NotEnoughMemory), Some(NotEnoughDisk), None}
    {
      var allocatedMemory, allocatedDisk := SumCommitted(dto.nodeId);
      var maxMemory := node.memory * (100 + node.memoryOverallocate);
      if 100 * (allocatedMemory + dto.memory) > maxMemory {
        return Some(NotEnoughMemory);
      }
      var maxDisk := node.disk * (100 + node.diskOverallocate);
      if 100 * (allocatedDisk + dto.disk) > maxDisk {
        return Some(NotEnoughDisk);
      }
      return None;
    }

    /** Insert the server, update the allocation, commit; a violated constraint rolls both tables back. */
    method CommitTransaction(dto: CreateDto, id: Id) returns (saved: bool)
      requires id !in servers
      modifies this
      ensures saved <==> CommitCreate(old(Rows()), dto, id).Some?
      ensures Rows() == if saved then CommitCreate(old(Rows()), dto, id).value else old(Rows())
      ensures saved <==>
        dto.nodeId in nodes && forall x :: x in old(servers) ==> old(servers)[x].allocationId != dto.allocationId
      ensures nodes == old(nodes)
      ensures !saved ==> servers == old(servers) && allocations == old(allocations)
      ensures saved ==> servers == old(servers)[id := Server(dto.nodeId, dto.allocationId, dto.memory, dto.disk)]
      ensures saved && dto.allocationId in old(allocations) ==>
        var taken := old(allocations)[dto.allocationId].(serverId := Some(id));
        allocations == old(allocations)[dto.allocationId := taken]
      ensures dto.allocationId !in old(allocations) ==> allocations == old(allocations)
    {
      var serversBefore, allocationsBefore := servers, allocations;
      servers := servers[id := Server(dto.nodeId, dto.allocationId, dto.memory, dto.disk)];
      var duplicate := exists x :: x in servers && x != id && servers[x].allocationId == dto.allocationId;
      if duplicate || dto.nodeId !in nodes {
        servers, allocations := serversBefore, allocationsBefore;
        return false;
      }
      assert forall x :: x in serversBefore ==> x in servers && servers[x] == serversBefore[x];
      if dto.allocationId in allocations {
        allocations := allocations[dto.allocationId := allocations[dto.allocationId].(serverId := Some(id))];
      }
      return true;
    }

    method ClearAllocation(found: Option<Id>)
      modifies this`allocations
      ensures Rows() == if found.Some? then SetServerId(old(Rows()), found.value, None) else old(Rows())
      ensures allocations.Keys == old(allocations.Keys)
      ensures forall a :: a in allocations ==>
        allocations[a] == if found == Some(a) then old(allocations)[a].(serverId := None) else old(allocations)[a]
    {
      if found.Some? && found.value in allocations {
        allocations := allocations[found.value := allocations[found.value].(serverId := None)];
      }
    }

    method RemoveRow(server: Id) returns (removed: bool)
      modifies this`servers
      ensures removed <==> RemoveServer(old(Rows()), server).Some?
      ensures Rows() == if removed then RemoveServer(old(Rows()), server).value else old(Rows())
      ensures removed <==> forall a :: a in allocations ==> allocations[a].serverId != Some(server)
      ensures servers == if removed then old(servers) - {server} else old(servers)
    {
      if exists a :: a in allocations && allocations[a].serverId == Some(server) {
        ghost var a :| a in allocations && allocations[a].serverId == Some(server);
        assert Names(Rows(), a, server);
        return false;
      }
      assert forall a :: a in allocations ==> !Names(Rows(), a, server);
      servers := servers - {server};
      return true;
    }

    /** The three round trips of a delete that no other request interrupts: afterwards the server is gone, and no
        allocation other than the one it owned has changed. */
    method Delete(server: Id, found: Option<Id>) returns (removed: bool)
      requires Safe(Rows()) && server in servers && Finds(Rows(), server, found)
      modifies this
      ensures removed && Safe(Rows())
      ensures servers == old(servers) - {server} && nodes == old(nodes)
      ensures !IsNamed(Rows(), server)
      ensures allocations.Keys == old(allocations.Keys)
      ensures forall a :: a in allocations ==>
        allocations[a] == if found == Some(a) then old(allocations)[a].(serverId := None) else old(allocations)[a]
    {
      ClearAllocation(found);
      assert !IsNamed(Rows(), server) by {
        forall a | a in allocations ensures !Names(Rows(), a, server) {
          assert old(Names(Rows(), a, server)) ==> found == Some(a);
        }
      }
      removed := RemoveRow(server);
    }
  }

  /** The aggregate is determined by what one row adds to it. */
  lemma CommittedCounts(db: Db, id: Id, row: Server, node: Id)
    requires id !in db.servers
    ensures var db' := db.(servers := db.servers[id := row]);
      && Committed(db', node, Memory) == Committed(db, node, Memory) + (if row.nodeId == node then row.memory else 0)
      && Committed(db', node, Disk) == Committed(db, node, Disk) + (if row.nodeId == node then row.disk else 0)
    ensures db.servers == map[] ==> Committed(db, node, Memory) == Committed(db, node, Disk) == 0
  {
    CommittedWith(db, id, row, node, Memory);
    CommittedWith(db, id, row, node, Disk);
    assert db.servers == map[] ==> CommittedRows(db, node, Memory) == CommittedRows(db, node, Disk) == map[];
  }

  lemma CommittedWith(db: Db, id: Id, row: Server, node: Id, r: Resource)
    requires id !in db.servers
    ensures Committed(db.(servers := db.servers[id := row]), node, r)
         == Committed(db, node, r) + (if row.nodeId == node then Amount(row, r) else 0)
  {
    var before, after := CommittedRows(db, node, r), CommittedRows(db.(servers := db.servers[id := row]), node, r);
    if row.nodeId == node {
      assert after == before[id := Amount(row, r)] && before - {id} == before;
      SumUpdate(before, id, Amount(row, r));
    } else {
      assert after == before;
    }
  }
}

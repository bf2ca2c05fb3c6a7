/** Allocations of a port range, created in two ways: by one batched query, and by one lookup per port. The table
    changes between the lookups and the save, which is one transaction under a unique key. */
module Ports {
  import opened Common

  const MAX_SPAN: int := 1000

  type Id = nat

  datatype Place = Place(node: string, ip: string)

  datatype Row = Row(id: Id, place: Place, port: int, alias: Option<string>, server: Option<Id>)

  /** Rows in the order of their insertion; `next` is an id that no row has had. `nodes` are the ids a row may refer
      to. */
  datatype Table = Table(rows: seq<Row>, next: Id, nodes: set<string>)

  datatype Refusal = RangeReversed | RangeTooLarge | UniqueViolation | UnknownNode

  predicate Taken(rows: seq<Row>, place: Place, port: int) {
    exists i :: 0 <= i < |rows| && rows[i].place == place && rows[i].port == port
  }

  /** The ports from `lo` on that the i-th lookup does not find in the rows it sees. */
  function Drafts(lookups: seq<seq<Row>>, place: Place, lo: int): seq<int> {
    if lookups == [] then []
    else
      var last := |lookups| - 1;
      Drafts(lookups[..last], place, lo) + if Taken(lookups[last], place, lo + last) then [] else [lo + last]
  }

  function NewRows(ports: seq<int>, place: Place, alias: Option<string>, next: Id): seq<Row> {
    seq(|ports|, i requires 0 <= i < |ports| => Row(next + i, place, ports[i], alias, None))
  }

  /** The ports of the query WHERE nodeId = ... AND ip = ... AND port IN (...). */
  function ExistingPorts(rows: seq<Row>, place: Place, ports: seq<int>): (existing: set<int>)
    ensures forall p :: p in existing <==> p in ports && Taken(rows, place, p)
  {
    set i | 0 <= i < |rows| && rows[i].place == place && rows[i].port in ports :: rows[i].port
  }

  function Added(t: Table, place: Place, alias: Option<string>, ports: seq<int>): Table {
    t.(rows := t.rows + NewRows(ports, place, alias, t.next), next := t.next + |ports|)
  }

  /** Saves all drafts or none: the unique key and the foreign key on nodeId decide. */
  function Save(t: Table, place: Place, alias: Option<string>, ports: seq<int>): Result<Table, Refusal> {
    if exists p :: p in ports && Taken(t.rows, place, p) then Err(UniqueViolation)
    else if ports != [] && place.node !in t.nodes then Err(UnknownNode)
    else Ok(Added(t, place, alias, ports))
  }

  function Create(
    t: Table, lookups: seq<seq<Row>>, place: Place, alias: Option<string>, lo: int, hi: int): Result<Table, Refusal>
  {
    if lo > hi then Err(RangeReversed)
    else if hi - lo > MAX_SPAN then Err(RangeTooLarge)
    else Save(t, place, alias, Drafts(lookups, place, lo))
  }

  /** All lookups see the same rows. */
  function Same(rows: seq<Row>, lo: int, hi: int): seq<seq<Row>> {
    seq(if lo <= hi then hi - lo + 1 else 0, _ => rows)
  }

  /** The lookup of this port of the range does not find it. */
  predicate Missing(lookups: seq<seq<Row>>, place: Place, lo: int, p: int) {
    lo <= p < lo + |lookups| && !Taken(lookups[p - lo], place, p)
  }

  /** Unassigned rows of one place in the order of their ports, with ids counted from `next`. */
  predicate AreNew(rows: seq<Row>, next: Id, place: Place, alias: Option<string>) {
    && (forall i :: 0 <= i < |rows| ==> rows[i] == Row(next + i, place, rows[i].port, alias, None))
    && (forall i, j :: 0 <= i < j < |rows| ==> rows[i].port < rows[j].port)
  }

  predicate Survives(r: Row, node: string) {
    r.place.node != node || r.server.Some?
  }

  function Filter(rows: seq<Row>, keep: Row -> bool): seq<Row> {
    if rows == [] then []
    else Filter(rows[..|rows| - 1], keep) + if keep(rows[|rows| - 1]) then [rows[|rows| - 1]] else []
  }

  // ------------------------------------------------------------------------------------------------
  // The creators and the deletes, on the table.

  class Allocations {
    var rows: seq<Row>
    var next: Id
    var nodes: set<string>

    ghost function AsTable(): Table
      reads this
    {
      Table(rows, next, nodes)
    }

    constructor (nodes: set<string>)
      ensures AsTable() == Table([], 0, nodes)
    {
      rows, next, this.nodes := [], 0, nodes;
    }

    method SaveAll(place: Place, alias: Option<string>, ports: seq<int>) returns (r: Result<seq<Row>, Refusal>)
      modifies this
      ensures var saved := Save(old(AsTable()), place, alias, ports);
        if saved.Err? then r == Err(saved.error) && AsTable() == old(AsTable())
        else AsTable() == saved.value && r == Ok(rows[|old(rows)|..])
      ensures r == Err(UniqueViolation) <==> exists p :: p in ports && Taken(old(rows), place, p)
      ensures r == Err(UnknownNode) <==>
        ports != [] && place.node !in nodes && forall p :: p in ports ==> !Taken(old(rows), place, p)
      ensures r.Err? ==> (r == Err(UniqueViolation) || r == Err(UnknownNode)) && rows == old(rows) && next == old(next)
      ensures nodes == old(nodes)
      ensures r.Ok? ==>
        && rows == old(rows) + r.value && next == old(next) + |r.value| && |r.value| == |ports|
        && forall i :: 0 <= i < |ports| ==> r.value[i] == Row(old(next) + i, place, ports[i], alias, None)
    {
      if exists p :: p in ports && Taken(rows, place, p) {
        return Err(UniqueViolation);
      }
      if ports != [] && place.node !in nodes {
        return Err(UnknownNode);
      }
      var added := NewRows(ports, place, alias, next);
      rows, next := rows + added, next + |ports|;
      return Ok(added);
    }

    /** AllocationsService.create: one query, which sees `seen`. */
    method CreateBatched(place: Place, lo: int, hi: int, seen: seq<Row>) returns (r: Result<seq<Row>, Refusal>)
      modifies this
      ensures lo > hi ==> r == Err(RangeReversed)
      ensures hi - lo > 1000 ==> r == Err(RangeTooLarge)
      ensures lo <= hi <= lo + 1000 ==> r.Ok? || r == Err(UniqueViolation) || r == Err(UnknownNode)
      ensures r.Err? ==> rows == old(rows) && next == old(next)
      ensures nodes == old(nodes)
      ensures r.Ok? ==> rows == old(rows) + r.value && next == old(next) + |r.value| && |r.value| <= 1001
      ensures r.Ok? ==> AreNew(r.value, old(next), place, None)
      ensures r.Ok? ==> forall p :: Taken(r.value, place, p) <==> Missing(Same(seen, lo, hi), place, lo, p)
      ensures r == Err(UniqueViolation) <==>
        lo <= hi <= lo + 1000 && exists p :: Missing(Same(seen, lo, hi), place, lo, p) && Taken(old(rows), place, p)
      ensures r == Err(UnknownNode) ==> place.node !in nodes && exists p :: Missing(Same(seen, lo, hi), place, lo, p)
      ensures r.Ok? && r.value != [] ==> place.node in nodes
      ensures var created := Create(old(AsTable()), Same(seen, lo, hi), place, None, lo, hi);
        if created.Err? then r == Err(created.error) && AsTable() == old(AsTable())
        else AsTable() == created.value && r == Ok(rows[|old(rows)|..])
    {
      if lo > hi {
        return Err(RangeReversed);
      }
      if hi - lo > MAX_SPAN {
        return Err(RangeTooLarge);
      }
      var ports := seq(hi - lo + 1, i => lo + i);
      var existing := ExistingPorts(seen, place, ports);
      ghost var lookups := Same(seen, lo, hi);
      var drafts := [];
      var i := 0;
      while i < |ports|
        invariant 0 <= i <= |ports|
        invariant drafts == Drafts(lookups[..i], place, lo)
      {
        assert lookups[..i + 1][..i] == lookups[..i] && ports[i] in ports;
        if ports[i] !in existing {
          drafts := drafts + [ports[i]];
        }
        i := i + 1;
      }
      assert lookups[..i] == lookups;
      CreateRefuses(AsTable(), lookups, place, None, lo, hi);
      if Create(AsTable(), lookups, place, None, lo, hi).Ok? {
        CreateAdds(AsTable(), lookups, place, None, lo, hi);
      }
      r := SaveAll(place, None, drafts);
    }

    /** AdminAllocationsController.create: one lookup per port, of which the i-th sees `lookups[i]`. */
    method CreatePerPort(place: Place, alias: Option<string>, lo: int, hi: int, lookups: seq<seq<Row>>)
      returns (r: Result<seq<Row>, Refusal>)
      requires |lookups| == if lo <= hi then hi - lo + 1 else 0
      modifies this
      ensures lo > hi ==> r == Err(RangeReversed)
      ensures hi - lo > 1000 ==> r == Err(RangeTooLarge)
      ensures lo <= hi <= lo + 1000 ==> r.Ok? || r == Err(UniqueViolation) || r == Err(UnknownNode)
      ensures r.Err? ==> rows == old(rows) && next == old(next)
      ensures nodes == old(nodes)
      ensures r.Ok? ==> rows == old(rows) + r.value && next == old(next) + |r.value| && |r.value| <= 1001
      ensures r.Ok? ==> AreNew(r.value, old(next), place, alias)
      ensures r.Ok? ==> forall p :: Taken(r.value, place, p) <==> Missing(lookups, place, lo, p)
      ensures r == Err(UniqueViolation) <==>
        lo <= hi <= lo + 1000 && exists p :: Missing(lookups, place, lo, p) && Taken(old(rows), place, p)
      ensures r == Err(UnknownNode) ==> place.node !in nodes && exists p :: Missing(lookups, place, lo, p)
      ensures r.Ok? && r.value != [] ==> place.node in nodes
      ensures var created := Create(old(AsTable()), lookups, place, alias, lo, hi);
        if created.Err? then r == Err(created.error) && AsTable() == old(AsTable())
        else AsTable() == created.value && r == Ok(rows[|old(rows)|..])
    {
      if lo > hi {
        return Err(RangeReversed);
      }
      if hi - lo > MAX_SPAN {
        return Err(RangeTooLarge);
      }
      var drafts := [];
      var port := lo;
      while port <= hi
        invariant lo <= port <= hi + 1
        invariant drafts == Drafts(lookups[..port - lo], place, lo)
      {
        assert lookups[..port - lo + 1][..port - lo] == lookups[..port - lo];
        if !Taken(lookups[port - lo], place, port) {
          drafts := drafts + [port];
        }
        port := port + 1;
      }
      assert lookups[..port - lo] == lookups;
      CreateRefuses(AsTable(), lookups, place, alias, lo, hi);
      if Create(AsTable(), lookups, place, alias, lo, hi).Ok? {
        CreateAdds(AsTable(), lookups, place, alias, lo, hi);
      }
      r := SaveAll(place, alias, drafts);
    }

    method BulkDelete(node: string)
      modifies this
      ensures AsTable() == old(AsTable()).(rows := Filter(old(rows), x => Survives(x, node)))
      ensures forall r :: r in rows <==> r in old(rows) && (r.place.node != node || r.server.Some?)
    {
      var kept := [];
      var i := 0;
      while i < |rows|
        invariant 0 <= i <= |rows|
        invariant AsTable() == old(AsTable())
        invariant kept == Filter(rows[..i], x => Survives(x, node))
      {
        assert rows[..i + 1][..i] == rows[..i];
        if Survives(rows[i], node) {
          kept := kept + [rows[i]];
        }
        i := i + 1;
      }
      assert rows[..i] == rows;
      forall r
        ensures r in kept <==> r in rows && (r.place.node != node || r.server.Some?)
      {
        FilterIff(rows, x => Survives(x, node), r);
      }
      rows := kept;
    }
  }

  // ------------------------------------------------------------------------------------------------
  // What is created.

  lemma {:induction false} DraftsIff(lookups: seq<seq<Row>>, place: Place, lo: int, p: int)
    ensures p in Drafts(lookups, place, lo) <==>
      lo <= p < lo + |lookups| && !Taken(lookups[p - lo], place, p)
    decreases |lookups|
  {
    if lookups != [] {
      DraftsIff(lookups[..|lookups| - 1], place, lo, p);
    }
  }

  ghost predicate Increasing(s: seq<int>) {
    forall i, j :: 0 <= i < j < |s| ==> s[i] < s[j]
  }

  lemma {:induction false} DraftsIncrease(lookups: seq<seq<Row>>, place: Place, lo: int)
    ensures Increasing(Drafts(lookups, place, lo)) && |Drafts(lookups, place, lo)| <= |lookups|
    ensures forall i :: 0 <= i < |Drafts(lookups, place, lo)| ==>
      lo <= Drafts(lookups, place, lo)[i] < lo + |lookups|
    decreases |lookups|
  {
    if lookups != [] {
      DraftsIncrease(lookups[..|lookups| - 1], place, lo);
    }
  }

  lemma DraftsAre(lookups: seq<seq<Row>>, place: Place, lo: int)
    ensures var ports := Drafts(lookups, place, lo);
      && Increasing(ports) && |ports| <= |lookups|
      && forall p :: p in ports <==> Missing(lookups, place, lo, p)
  {
    DraftsIncrease(lookups, place, lo);
    forall p
      ensures p in Drafts(lookups, place, lo) <==> Missing(lookups, place, lo, p)
    {
      DraftsIff(lookups, place, lo, p);
    }
  }

  lemma NewRowsAre(ports: seq<int>, place: Place, alias: Option<string>, next: Id)
    requires Increasing(ports)
    ensures AreNew(NewRows(ports, place, alias, next), next, place, alias)
    ensures forall p :: Taken(NewRows(ports, place, alias, next), place, p) <==> p in ports
  {
    var added := NewRows(ports, place, alias, next);
    forall p | p in ports
      ensures Taken(added, place, p)
    {
      var i :| 0 <= i < |ports| && ports[i] == p;
      assert added[i].port == p;
    }
  }

  /** What is refused, whatever the range. */
  lemma CreateRefuses(t: Table, lookups: seq<seq<Row>>, place: Place, alias: Option<string>, lo: int, hi: int)
    requires |lookups| == if lo <= hi then hi - lo + 1 else 0
    ensures var r := Create(t, lookups, place, alias, lo, hi);
      && (lo > hi ==> r == Err(RangeReversed))
      && (hi - lo > 1000 ==> r == Err(RangeTooLarge))
      && (lo <= hi <= lo + 1000 ==> r.Ok? || r == Err(UniqueViolation) || r == Err(UnknownNode))
      && (r == Err(UniqueViolation) <==>
            lo <= hi <= lo + 1000 && exists p :: Missing(lookups, place, lo, p) && Taken(t.rows, place, p))
      && (r == Err(UnknownNode) ==> place.node !in t.nodes && exists p :: Missing(lookups, place, lo, p))
  {
    var ports := Drafts(lookups, place, lo);
    DraftsAre(lookups, place, lo);
    var p := if ports == [] then lo else ports[0];
    assert ports != [] ==> p in ports && Missing(lookups, place, lo, p);
  }

  /** What is added: exactly the missing ports. */
  lemma CreateAdds(t: Table, lookups: seq<seq<Row>>, place: Place, alias: Option<string>, lo: int, hi: int)
    requires |lookups| == if lo <= hi then hi - lo + 1 else 0
    requires Create(t, lookups, place, alias, lo, hi).Ok?
    ensures var t' := Create(t, lookups, place, alias, lo, hi).value;
      && t.rows <= t'.rows && t'.nodes == t.nodes
      && var added := t'.rows[|t.rows|..];
         && |added| <= 1001 && t'.next == t.next + |added| && (added != [] ==> place.node in t.nodes)
         && AreNew(added, t.next, place, alias)
         && forall p :: Taken(added, place, p) <==> Missing(lookups, place, lo, p)
  {
    var ports := Drafts(lookups, place, lo);
    DraftsAre(lookups, place, lo);
    NewRowsAre(ports, place, alias, t.next);
    assert (t.rows + NewRows(ports, place, alias, t.next))[|t.rows|..] == NewRows(ports, place, alias, t.next);
  }

  /** MAIN RESULT. Both creators, when nothing intervenes, on a range that is not reversed and spans at most 1000. The
      rows added are new, unassigned, with the ports of the range that were missing, in increasing order and at most
      1001 of them; they differ between the two creators in the alias alone. The one refusal is of an unknown node,
      unless nothing is missing. */
  lemma CreatesExactlyTheMissing(t: Table, place: Place, alias: Option<string>, lo: int, hi: int)
    returns (ports: seq<int>)
    requires lo <= hi <= lo + MAX_SPAN
    ensures Create(t, Same(t.rows, lo, hi), place, alias, lo, hi) ==
      if ports != [] && place.node !in t.nodes then Err(UnknownNode) else Ok(Added(t, place, alias, ports))
    ensures Increasing(ports) && |ports| <= MAX_SPAN + 1
    ensures forall p :: p in ports <==> lo <= p <= hi && !Taken(t.rows, place, p)
  {
    ports := Drafts(Same(t.rows, lo, hi), place, lo);
    DraftsIncrease(Same(t.rows, lo, hi), place, lo);
    forall p
      ensures p in ports <==> lo <= p <= hi && !Taken(t.rows, place, p)
    {
      DraftsIff(Same(t.rows, lo, hi), place, lo, p);
    }
  }

  lemma TakenAfter(t: Table, ports: seq<int>, place: Place, alias: Option<string>, at: Place, p: int)
    ensures Taken(t.rows + NewRows(ports, place, alias, t.next), at, p) <==>
      Taken(t.rows, at, p) || (at == place && p in ports)
  {
    var added := NewRows(ports, place, alias, t.next);
    var rows := t.rows + added;
    if i :| 0 <= i < |t.rows| && t.rows[i].place == at && t.rows[i].port == p {
      assert rows[i] == t.rows[i];
    }
    if at == place && p in ports {
      var i :| 0 <= i < |ports| && ports[i] == p;
      assert rows[|t.rows| + i] == added[i];
    }
  }

  /** The call goes through exactly when the node is known or the whole range is taken; afterwards a port is taken
      exactly when it was before or is one of the range. */
  lemma RangeIsTaken(t: Table, place: Place, alias: Option<string>, lo: int, hi: int, at: Place, p: int)
    requires lo <= hi <= lo + MAX_SPAN
    ensures var created := Create(t, Same(t.rows, lo, hi), place, alias, lo, hi);
      && (created.Ok? <==> place.node in t.nodes || forall q :: lo <= q <= hi ==> Taken(t.rows, place, q))
      && (created.Ok? ==>
            (Taken(created.value.rows, at, p) <==> Taken(t.rows, at, p) || (at == place && lo <= p <= hi)))
  {
    var ports := CreatesExactlyTheMissing(t, place, alias, lo, hi);
    TakenAfter(t, ports, place, alias, at, p);
    var q := if ports == [] then lo else ports[0];
    assert ports != [] ==> q in ports;
  }

  lemma NothingIsMissing(t: Table, place: Place, alias: Option<string>, lo: int, hi: int)
    requires lo <= hi <= lo + MAX_SPAN && forall p :: lo <= p <= hi ==> Taken(t.rows, place, p)
    ensures Create(t, Same(t.rows, lo, hi), place, alias, lo, hi) == Ok(t)
  {
    var ports := CreatesExactlyTheMissing(t, place, alias, lo, hi);
    var p := if ports == [] then lo else ports[0];
    assert ports != [] ==> p in ports;
    assert t.rows + NewRows([], place, alias, t.next) == t.rows;
  }

  /** MAIN RESULT. Repeating a call, by either creator, adds nothing. */
  lemma RepeatAddsNothing(
    t: Table, place: Place, alias: Option<string>, again: Option<string>, lo: int, hi: int)
    requires lo <= hi <= lo + MAX_SPAN
    ensures var created := Create(t, Same(t.rows, lo, hi), place, alias, lo, hi);
      created.Ok? ==>
        Create(created.value, Same(created.value.rows, lo, hi), place, again, lo, hi) == created
  {
    var created := Create(t, Same(t.rows, lo, hi), place, alias, lo, hi);
    if created.Ok? {
      forall p | lo <= p <= hi
        ensures Taken(created.value.rows, place, p)
      {
        RangeIsTaken(t, place, alias, lo, hi, place, p);
      }
      NothingIsMissing(created.value, place, again, lo, hi);
    }
  }

  /** The refusal message speaks of 1000 allocations; a free range of 1001 is created. */
  lemma {:induction false} FreeRangeIsDrafted(n: nat, place: Place, lo: int)
    ensures |Drafts(seq(n, _ => []), place, lo)| == n
    decreases n
  {
    if n > 0 {
      var lookups: seq<seq<Row>> := seq(n, _ => []);
      assert lookups[..n - 1] == seq(n - 1, _ => []);
      FreeRangeIsDrafted(n - 1, place, lo);
    }
  }

  lemma LimitIsOneMore(place: Place, alias: Option<string>, lo: int)
    ensures var t := Table([], 0, {place.node});
      var created := Create(t, Same([], lo, lo + MAX_SPAN), place, alias, lo, lo + MAX_SPAN);
      created.Ok? && |created.value.rows| == 1001
  {
    FreeRangeIsDrafted(1001, place, lo);
    assert Same([], lo, lo + MAX_SPAN) == seq(1001, _ => []);
  }

  // ------------------------------------------------------------------------------------------------
  // Other requests between the lookups and the save.

  ghost predicate Unique(t: Table) {
    && (forall i, j :: 0 <= i < j < |t.rows| ==>
          t.rows[i].place != t.rows[j].place || t.rows[i].port != t.rows[j].port)
    && (forall i, j :: 0 <= i < j < |t.rows| ==> t.rows[i].id != t.rows[j].id)
    && (forall i :: 0 <= i < |t.rows| ==> t.rows[i].id < t.next)
  }

  lemma NewRowsAreUnique(t: Table, ports: seq<int>, place: Place, alias: Option<string>)
    requires Unique(t) && Increasing(ports)
    requires forall j :: 0 <= j < |ports| ==> !Taken(t.rows, place, ports[j])
    ensures Unique(Added(t, place, alias, ports))
  {
    var rows := t.rows + NewRows(ports, place, alias, t.next);
    forall i, j | 0 <= i < j < |rows|
      ensures rows[i].place != rows[j].place || rows[i].port != rows[j].port
    {
      if i < |t.rows| <= j {
        assert !Taken(t.rows, place, ports[j - |t.rows|]);
      }
    }
  }

  /** MAIN RESULT. Whatever the lookups saw, a save keeps (node, ip, port) unique. */
  lemma UniquenessIsKept(
    t: Table, lookups: seq<seq<Row>>, place: Place, alias: Option<string>, lo: int, hi: int)
    requires Unique(t)
    ensures var created := Create(t, lookups, place, alias, lo, hi);
      created.Ok? ==> Unique(created.value)
  {
    var ports := Drafts(lookups, place, lo);
    DraftsIncrease(lookups, place, lo);
    if Create(t, lookups, place, alias, lo, hi).Ok? {
      assert forall j :: 0 <= j < |ports| ==> ports[j] in ports;
      NewRowsAreUnique(t, ports, place, alias);
    }
  }

  /** No allocation was removed between any lookup and the save. */
  ghost predicate OnlyAdded(lookups: seq<seq<Row>>, rows: seq<Row>, place: Place, lo: int) {
    forall i :: 0 <= i < |lookups| && Taken(lookups[i], place, lo + i) ==> Taken(rows, place, lo + i)
  }

  lemma {:induction false} SameDrafts(xs: seq<seq<Row>>, ys: seq<seq<Row>>, place: Place, lo: int)
    requires |xs| == |ys|
    requires forall i :: 0 <= i < |xs| ==> (Taken(xs[i], place, lo + i) <==> Taken(ys[i], place, lo + i))
    ensures Drafts(xs, place, lo) == Drafts(ys, place, lo)
    decreases |xs|
  {
    if xs != [] {
      SameDrafts(xs[..|xs| - 1], ys[..|ys| - 1], place, lo);
    }
  }

  /** MAIN RESULT. When allocations are only added meanwhile, the scattered lookups do not matter: a creator meets the
      unique key exactly when a port of its range was taken between its lookup and the save, and otherwise it does what
      one step at the save would do. */
  lemma ActsAtTheSave(t: Table, lookups: seq<seq<Row>>, place: Place, alias: Option<string>, lo: int, hi: int)
    requires lo <= hi <= lo + MAX_SPAN && |lookups| == hi - lo + 1 && OnlyAdded(lookups, t.rows, place, lo)
    ensures var created := Create(t, lookups, place, alias, lo, hi);
      && (created != Err(UniqueViolation) <==>
            forall i :: 0 <= i < |lookups| && Taken(t.rows, place, lo + i) ==> Taken(lookups[i], place, lo + i))
      && (created != Err(UniqueViolation) ==> created == Create(t, Same(t.rows, lo, hi), place, alias, lo, hi))
  {
    var ports := Drafts(lookups, place, lo);
    if i :| 0 <= i < |lookups| && Taken(t.rows, place, lo + i) && !Taken(lookups[i], place, lo + i) {
      DraftsIff(lookups, place, lo, lo + i);
    } else {
      forall p | p in ports
        ensures !Taken(t.rows, place, p)
      {
        DraftsIff(lookups, place, lo, p);
        assert lo + (p - lo) == p;
      }
      SameDrafts(lookups, Same(t.rows, lo, hi), place, lo);
    }
  }

  // ------------------------------------------------------------------------------------------------
  // Deleting.

  lemma {:induction false} FilterAll(rows: seq<Row>, keep: Row -> bool)
    requires forall i :: 0 <= i < |rows| ==> keep(rows[i])
    ensures Filter(rows, keep) == rows
    decreases |rows|
  {
    if rows != [] {
      FilterAll(rows[..|rows| - 1], keep);
    }
  }

  lemma {:induction false} FilterDropsTail(rows: seq<Row>, tail: seq<Row>, keep: Row -> bool)
    requires forall i :: 0 <= i < |tail| ==> !keep(tail[i])
    ensures Filter(rows + tail, keep) == Filter(rows, keep)
    decreases |tail|
  {
    if tail == [] {
      assert rows + tail == rows;
    } else {
      var last := |tail| - 1;
      assert (rows + tail)[..|rows| + last] == rows + tail[..last];
      FilterDropsTail(rows, tail[..last], keep);
    }
  }

  lemma {:induction false} FilterIff(rows: seq<Row>, keep: Row -> bool, r: Row)
    ensures r in Filter(rows, keep) <==> r in rows && keep(r)
    decreases |rows|
  {
    if rows != [] {
      var last := |rows| - 1;
      FilterIff(rows[..last], keep, r);
      assert rows == rows[..last] + [rows[last]];
    }
  }

  /** MAIN RESULT. A bulk delete undoes a create on a node whose allocations were all assigned, and it never removes
      an assigned one. */
  lemma BulkDeleteUndoesCreate(t: Table, place: Place, alias: Option<string>, lo: int, hi: int, r: Row)
    requires lo <= hi <= lo + MAX_SPAN
    ensures var created, keep := Create(t, Same(t.rows, lo, hi), place, alias, lo, hi), x => Survives(x, place.node);
      created.Ok? ==>
      && ((forall i :: 0 <= i < |t.rows| ==> keep(t.rows[i])) ==> Filter(created.value.rows, keep) == t.rows)
      && (r in Filter(created.value.rows, keep) <==> r in t.rows && keep(r))
  {
    var keep := x => Survives(x, place.node);
    var ports := CreatesExactlyTheMissing(t, place, alias, lo, hi);
    FilterDropsTail(t.rows, NewRows(ports, place, alias, t.next), keep);
    FilterIff(t.rows, keep, r);
    if forall i :: 0 <= i < |t.rows| ==> keep(t.rows[i]) {
      FilterAll(t.rows, keep);
    }
  }
}

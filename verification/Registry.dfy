/** The server registry of Wings: a map in memory, written through to one JSON file per server and reloaded when the
    daemon starts. */
module Registry {
  import opened Common

  predicate SingleComponent(s: string) {
    s != "" && s != "." && s != ".." && '/' !in s
  }

  /** Uuids name one directory below the data directory. */
  type Uuid = s: string | SingleComponent(s) witness "0"

  datatype PortMapping = PortMapping(hostPort: nat, containerPort: nat)

  datatype ServerConfig = ServerConfig(
    uuid: Uuid, dockerImage: string, startupCommand: string, environment: map<string, string>,
    memoryLimit: nat, cpuLimit: nat, diskLimit: nat, portMappings: seq<PortMapping>, volumePath: string)

  type Configs = map<Uuid, ServerConfig>

  /** The content of a .nexus-config.json: a serialised configuration, or text that does not parse as one. */
  datatype Content = Json(config: ServerConfig) | Garbage

  /** The directories below the data directory, each with or without a configuration file. */
  type Disk = map<Uuid, Option<Content>>

  function MakeDir(disk: Disk, dir: Uuid): Disk {
    if dir in disk then disk else disk[dir := None]
  }

  function WriteFile(disk: Disk, dir: Uuid, config: ServerConfig): Disk
    requires dir in disk
  {
    disk[dir := Some(Json(config))]
  }

  function RemoveFile(disk: Disk, dir: Uuid): Disk {
    if dir in disk then disk[dir := None] else disk
  }

  predicate HasConfig(disk: Disk, dir: Uuid) {
    dir in disk && disk[dir].Some? && disk[dir].value.Json?
  }

  function ConfigAt(disk: Disk, dir: Uuid): ServerConfig
    requires HasConfig(disk, dir)
  {
    disk[dir].value.config
  }

  /** read_dir yields every directory once, in an order the file system chooses. */
  ghost predicate IsOrder(disk: Disk, order: seq<Uuid>) {
    && (forall d :: d in order <==> d in disk)
    && (forall i, j :: 0 <= i < j < |order| ==> order[i] != order[j])
  }

  /** The loop of load_configs over the entries in the given order: a later file of the same uuid wins. */
  function Load(disk: Disk, order: seq<Uuid>): Configs {
    if order == [] then map[]
    else
      var earlier, dir := Load(disk, order[..|order| - 1]), order[|order| - 1];
      if HasConfig(disk, dir) then earlier[ConfigAt(disk, dir).uuid := ConfigAt(disk, dir)] else earlier
  }

  /** The i-th entry holds a configuration, and no later one holds another of the same uuid. */
  predicate LastFile(disk: Disk, order: seq<Uuid>, i: int) {
    && 0 <= i < |order| && order[i] in disk && disk[order[i]].Some? && disk[order[i]].value.Json?
    && forall j :: i < j < |order| && order[j] in disk && disk[order[j]].Some? && disk[order[j]].value.Json? ==>
         disk[order[j]].value.config.uuid != disk[order[i]].value.config.uuid
  }

  lemma {:induction false} LastFileIsLoaded(disk: Disk, order: seq<Uuid>, i: int)
    requires LastFile(disk, order, i)
    ensures var config := disk[order[i]].value.config;
      config.uuid in Load(disk, order) && Load(disk, order)[config.uuid] == config
    decreases |order|
  {
    var n := |order| - 1;
    if i < n {
      assert order[..n][i] == order[i];
      LastFileIsLoaded(disk, order[..n], i);
    }
  }

  lemma {:induction false} LoadedHasLastFile(disk: Disk, order: seq<Uuid>, u: Uuid) returns (i: int)
    requires u in Load(disk, order)
    ensures LastFile(disk, order, i) && disk[order[i]].value.config.uuid == u
    decreases |order|
  {
    var n := |order| - 1;
    if HasConfig(disk, order[n]) && ConfigAt(disk, order[n]).uuid == u {
      i := n;
    } else {
      i := LoadedHasLastFile(disk, order[..n], u);
    }
  }

  // ------------------------------------------------------------------------------------------------
  // The methods.

  class AppState {
    var serverConfigs: Configs
    var disk: Disk

    constructor (disk: Disk, order: seq<Uuid>)
      ensures this.disk == disk && serverConfigs == Load(disk, order)
      ensures forall memory :: Apply(State(memory, disk), Restart(order)) == State(serverConfigs, disk)
    {
      var configs := LoadConfigs(disk, order);
      this.disk := disk;
      serverConfigs := configs;
    }

    static method LoadConfigs(disk: Disk, order: seq<Uuid>) returns (configs: Configs)
      ensures configs == Load(disk, order)
      ensures forall i :: 0 <= i < |order| && LastFile(disk, order, i) ==>
        var config := disk[order[i]].value.config; config.uuid in configs && configs[config.uuid] == config
      ensures forall u :: u in configs ==> exists i :: LastFile(disk, order, i) && disk[order[i]].value.config.uuid == u
    {
      configs := map[];
      for i := 0 to |order|
        invariant configs == Load(disk, order[..i])
      {
        var dir := order[i];
        assert order[..i + 1][..i] == order[..i];
        if dir in disk && disk[dir].Some? {
          match disk[dir].value {
            case Json(config) => configs := configs[config.uuid := config];
            case Garbage =>
          }
        }
      }
      assert order[..|order|] == order;
      forall i | 0 <= i < |order| && LastFile(disk, order, i)
        ensures var config := disk[order[i]].value.config; config.uuid in configs && configs[config.uuid] == config
      {
        LastFileIsLoaded(disk, order, i);
      }
      forall u | u in configs
        ensures exists i :: LastFile(disk, order, i) && disk[order[i]].value.config.uuid == u
      {
        var i := LoadedHasLastFile(disk, order, u);
      }
    }

    method StoreServerConfig(config: ServerConfig)
      modifies this
      ensures serverConfigs == old(serverConfigs)[config.uuid := config]
      ensures disk == old(disk)[config.uuid := Some(Json(config))]
      ensures State(serverConfigs, disk) == Apply(State(old(serverConfigs), old(disk)), Store(config))
    {
      serverConfigs := serverConfigs[config.uuid := config];
      PersistConfig(config.uuid, config);
    }

    method PersistConfig(uuid: Uuid, config: ServerConfig)
      modifies this`disk
      ensures disk == old(disk)[uuid := Some(Json(config))]
    {
      if uuid !in disk {
        disk := disk[uuid := None];
      }
      disk := disk[uuid := Some(Json(config))];
    }

    method GetServerConfig(uuid: Uuid) returns (config: Option<ServerConfig>)
      ensures config == if uuid in serverConfigs then Some(serverConfigs[uuid]) else None
    {
      if uuid in serverConfigs {
        return Some(serverConfigs[uuid]);
      }
      return None;
    }

    method RemoveServerConfig(uuid: Uuid)
      modifies this
      ensures serverConfigs == old(serverConfigs) - {uuid}
      ensures disk == if uuid in old(disk) then old(disk)[uuid := None] else old(disk)
      ensures State(serverConfigs, disk) == Apply(State(old(serverConfigs), old(disk)), Remove(uuid))
    {
      serverConfigs := serverConfigs - {uuid};
      if uuid in disk {
        disk := disk[uuid := None];
      }
    }
  }

  // ------------------------------------------------------------------------------------------------
  // When does loading depend on the directory order?

  /** Two files with the same uuid hold the same configuration. */
  ghost predicate Unambiguous(disk: Disk) {
    forall d, e :: HasConfig(disk, d) && HasConfig(disk, e) && ConfigAt(disk, d).uuid == ConfigAt(disk, e).uuid ==>
      ConfigAt(disk, d) == ConfigAt(disk, e)
  }

  lemma {:induction false} LoadedFrom(disk: Disk, order: seq<Uuid>, uuid: Uuid)
    ensures uuid in Load(disk, order)
       <==> exists d :: d in order && HasConfig(disk, d) && ConfigAt(disk, d).uuid == uuid
    ensures uuid in Load(disk, order) ==>
      Load(disk, order)[uuid].uuid == uuid
      && exists d :: d in order && HasConfig(disk, d) && ConfigAt(disk, d) == Load(disk, order)[uuid]
    decreases |order|
  {
    if order != [] {
      var n := |order| - 1;
      LoadedFrom(disk, order[..n], uuid);
      assert forall d :: d in order <==> d in order[..n] || d == order[n];
    }
  }

  lemma OrderIsIrrelevant(disk: Disk, order: seq<Uuid>, order': seq<Uuid>)
    requires Unambiguous(disk) && IsOrder(disk, order) && IsOrder(disk, order')
    ensures Load(disk, order) == Load(disk, order')
  {
    forall u: Uuid | true
      ensures u in Load(disk, order) <==> u in Load(disk, order')
      ensures u in Load(disk, order) ==> Load(disk, order)[u] == Load(disk, order')[u]
    {
      LoadedFrom(disk, order, u);
      LoadedFrom(disk, order', u);
    }
  }

  lemma {:induction false} Enumerate(dirs: set<Uuid>) returns (order: seq<Uuid>)
    ensures forall d :: d in order <==> d in dirs
    ensures forall i, j :: 0 <= i < j < |order| ==> order[i] != order[j]
    decreases dirs
  {
    if dirs == {} {
      order := [];
    } else {
      var d :| d in dirs;
      var rest := Enumerate(dirs - {d});
      order := rest + [d];
    }
  }

  lemma LastWins(disk: Disk, rest: seq<Uuid>, d: Uuid, e: Uuid)
    requires HasConfig(disk, e)
    ensures var loaded := Load(disk, rest + [d, e]); var config := ConfigAt(disk, e);
      config.uuid in loaded && loaded[config.uuid] == config
  {
    var order := rest + [d, e];
    assert order[|order| - 1] == e;
  }

  lemma PutLast(disk: Disk, rest: seq<Uuid>, d: Uuid, e: Uuid)
    requires d in disk && e in disk && d != e
    requires forall x :: x in rest <==> x in disk.Keys - {d, e}
    requires forall i, j :: 0 <= i < j < |rest| ==> rest[i] != rest[j]
    ensures IsOrder(disk, rest + [d, e])
  {
    var order := rest + [d, e];
    forall x | x in disk ensures x in order {
      assert order[|rest|] == d && order[|rest| + 1] == e;
      if x != d && x != e {
        assert x in rest;
      }
    }
    forall i, j | 0 <= i < j < |order| ensures order[i] != order[j] {
      if i < |rest| {
        assert order[i] in rest;
      }
    }
  }

  /** Two files that disagree about a uuid load differently in two orders. */
  lemma DisagreementShows(disk: Disk, d: Uuid, e: Uuid) returns (order: seq<Uuid>, order': seq<Uuid>)
    requires HasConfig(disk, d) && HasConfig(disk, e) && ConfigAt(disk, d).uuid == ConfigAt(disk, e).uuid
    requires ConfigAt(disk, d) != ConfigAt(disk, e)
    ensures IsOrder(disk, order) && IsOrder(disk, order') && Load(disk, order) != Load(disk, order')
  {
    var rest := Enumerate(disk.Keys - {d, e});
    PutLast(disk, rest, d, e);
    PutLast(disk, rest, e, d);
    LastWins(disk, rest, d, e);
    LastWins(disk, rest, e, d);
    order, order' := rest + [d, e], rest + [e, d];
  }

  ghost predicate AnyOrderLoadsTheSame(disk: Disk) {
    forall order, order' :: IsOrder(disk, order) && IsOrder(disk, order') ==> Load(disk, order) == Load(disk, order')
  }

  /** MAIN RESULT. The loaded registry is independent of the directory order exactly when no two files disagree about
      one uuid. */
  lemma OrderIsIrrelevantIff(disk: Disk)
    ensures AnyOrderLoadsTheSame(disk) <==> Unambiguous(disk)
  {
    if Unambiguous(disk) {
      forall order, order' | IsOrder(disk, order) && IsOrder(disk, order')
        ensures Load(disk, order) == Load(disk, order')
      {
        OrderIsIrrelevant(disk, order, order');
      }
    } else {
      var d, e :| HasConfig(disk, d) && HasConfig(disk, e) && ConfigAt(disk, d).uuid == ConfigAt(disk, e).uuid
        && ConfigAt(disk, d) != ConfigAt(disk, e);
      var order, order' := DisagreementShows(disk, d, e);
    }
  }

  // ------------------------------------------------------------------------------------------------
  // Runs and crashes.

  datatype State = State(memory: Configs, disk: Disk)

  datatype Op = Store(config: ServerConfig) | Remove(uuid: Uuid) | Restart(order: seq<Uuid>)

  function Apply(s: State, op: Op): State {
    match op
    case Store(c) => State(s.memory[c.uuid := c], WriteFile(MakeDir(s.disk, c.uuid), c.uuid, c))
    case Remove(u) => State(s.memory - {u}, RemoveFile(s.disk, u))
    case Restart(order) => State(Load(s.disk, order), s.disk)
  }

  function Run(s: State, ops: seq<Op>): State
    decreases |ops|
  {
    if ops == [] then s else Run(Apply(s, ops[0]), ops[1..])
  }

  /** What a crash can find on disk while an operation runs: before it, between its file operations, after it. */
  function DisksDuring(s: State, op: Op): seq<Disk> {
    match op
    case Store(c) => [s.disk, MakeDir(s.disk, c.uuid), WriteFile(MakeDir(s.disk, c.uuid), c.uuid, c)]
    case Remove(u) => [s.disk, RemoveFile(s.disk, u)]
    case Restart(_) => [s.disk]
  }

  /** Every file lies in the directory of its uuid. */
  ghost predicate InPlace(disk: Disk) {
    forall d :: HasConfig(disk, d) ==> ConfigAt(disk, d).uuid == d
  }

  function OnDisk(disk: Disk): Configs {
    map d | d in disk && HasConfig(disk, d) :: ConfigAt(disk, d)
  }

  /** The registry in memory is what the disk holds. */
  ghost predicate Synced(s: State) {
    InPlace(s.disk) && s.memory == OnDisk(s.disk)
  }

  lemma LoadIsOnDisk(disk: Disk, order: seq<Uuid>)
    requires InPlace(disk) && IsOrder(disk, order)
    ensures Load(disk, order) == OnDisk(disk)
  {
    forall u: Uuid | true
      ensures u in Load(disk, order) <==> u in OnDisk(disk)
      ensures u in Load(disk, order) ==> Load(disk, order)[u] == OnDisk(disk)[u]
    {
      LoadedFrom(disk, order, u);
    }
  }

  ghost predicate RestartsRead(s: State, ops: seq<Op>)
    decreases |ops|
  {
    ops != [] ==>
      && (ops[0].Restart? ==> IsOrder(s.disk, ops[0].order))
      && RestartsRead(Apply(s, ops[0]), ops[1..])
  }

  lemma MakeDirKeeps(disk: Disk, u: Uuid)
    requires InPlace(disk)
    ensures InPlace(MakeDir(disk, u)) && OnDisk(MakeDir(disk, u)) == OnDisk(disk)
  {
    assert forall d :: HasConfig(MakeDir(disk, u), d) ==> HasConfig(disk, d);
  }

  lemma WriteFileUpdates(disk: Disk, c: ServerConfig)
    requires InPlace(disk) && c.uuid in disk
    ensures InPlace(WriteFile(disk, c.uuid, c)) && OnDisk(WriteFile(disk, c.uuid, c)) == OnDisk(disk)[c.uuid := c]
  {
    assert forall d :: d != c.uuid && HasConfig(WriteFile(disk, c.uuid, c), d) ==> HasConfig(disk, d);
  }

  lemma RemoveFileDrops(disk: Disk, u: Uuid)
    requires InPlace(disk)
    ensures InPlace(RemoveFile(disk, u)) && OnDisk(RemoveFile(disk, u)) == OnDisk(disk) - {u}
  {
    assert forall d :: HasConfig(RemoveFile(disk, u), d) ==> HasConfig(disk, d);
  }

  lemma ApplyKeepsSynced(s: State, op: Op)
    requires Synced(s) && (op.Restart? ==> IsOrder(s.disk, op.order))
    ensures Synced(Apply(s, op))
  {
    match op
    case Store(c) =>
      MakeDirKeeps(s.disk, c.uuid);
      WriteFileUpdates(MakeDir(s.disk, c.uuid), c);
    case Remove(u) => RemoveFileDrops(s.disk, u);
    case Restart(order) => LoadIsOnDisk(s.disk, order);
  }

  lemma {:induction false} RunKeepsSynced(s: State, ops: seq<Op>)
    requires Synced(s) && RestartsRead(s, ops)
    ensures Synced(Run(s, ops))
    decreases |ops|
  {
    if ops != [] {
      ApplyKeepsSynced(s, ops[0]);
      RunKeepsSynced(Apply(s, ops[0]), ops[1..]);
    }
  }

  /** MAIN RESULT. After any run of stores, removes and restarts, loading the disk gives the registry in memory,
      whatever the directory order; so a restart never changes what is registered. */
  lemma ReloadIsIdentity(disk: Disk, order: seq<Uuid>, ops: seq<Op>, order': seq<Uuid>)
    requires InPlace(disk) && IsOrder(disk, order)
    requires RestartsRead(State(Load(disk, order), disk), ops)
    requires IsOrder(Run(State(Load(disk, order), disk), ops).disk, order')
    ensures var s := Run(State(Load(disk, order), disk), ops); Load(s.disk, order') == s.memory
  {
    LoadIsOnDisk(disk, order);
    var start := State(Load(disk, order), disk);
    RunKeepsSynced(start, ops);
    LoadIsOnDisk(Run(start, ops).disk, order');
  }

  /** MAIN RESULT. A crash at any point of an operation reloads the registry from just before or from just after
      it, nothing in between. */
  lemma CrashIsAtomic(s: State, op: Op, i: nat, order: seq<Uuid>)
    requires Synced(s) && (op.Restart? ==> IsOrder(s.disk, op.order))
    requires i < |DisksDuring(s, op)| && IsOrder(DisksDuring(s, op)[i], order)
    ensures Load(DisksDuring(s, op)[i], order) in {s.memory, Apply(s, op).memory}
  {
    var disk := DisksDuring(s, op)[i];
    ApplyKeepsSynced(s, op);
    if op.Store? {
      MakeDirKeeps(s.disk, op.config.uuid);
    }
    LoadIsOnDisk(disk, order);
  }
}

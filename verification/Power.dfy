/** Live resource limits and the reconstruction of a lost container from the registry, with the integer widths of
    the Rust code. Handlers of one uuid are taken as atomic; the lock table that makes them so is modelled in
    Locks. */
module Power {
  import opened Common
  import opened Registry

  const TWO_63: int := 0x8000_0000_0000_0000

  type U32 = x: int | 0 <= x < 0x1_0000_0000
  type I64 = x: int | -TWO_63 <= x < TWO_63

  /** `as i64`: the same 64 bits. */
  function AsI64(x: U64): I64 {
    if x < TWO_63 then x else x - TWO_64
  }

  datatype Limits = Limits(memory: I64, nanoCpus: I64)

  /** (memory_limit * 1024 * 1024) as i64 and (cpu_limit * 10_000_000) as i64, in u64, when a container is made. */
  function CreateLimits(memoryMb: U64, cpu: U64): Limits {
    Limits(AsI64(Wrap(Wrap(memoryMb * 1024) * 1024)), AsI64(Wrap(cpu * 10_000_000)))
  }

  /** The same memory arithmetic, but (cpu_limit as i64) * 10_000_000 in i64, when limits are changed live. */
  function UpdateLimits(memoryMb: U64, cpu: U32): Limits {
    Limits(AsI64(Wrap(Wrap(memoryMb * 1024) * 1024)), AsI64(Wrap(cpu * 10_000_000)))
  }

  lemma WrapTwice(mb: int)
    ensures Wrap(Wrap(mb * 1024) * 1024) == Wrap(mb * 1048576)
  {
    var inner := Wrap(mb * 1024);
    WrapIs(mb * 1048576, (mb * 1024 / TWO_64) * 1024 + inner * 1024 / TWO_64, Wrap(inner * 1024));
  }

  /** MAIN RESULT. The limit Docker gets is the requested number of bytes exactly when the request is below 2^43 MB;
      the CPU arithmetic is exact for every u32, on both paths. */
  lemma LimitsAreExactIff(memoryMb: U64, cpu: U32)
    ensures UpdateLimits(memoryMb, cpu).memory == memoryMb * 1048576 <==> memoryMb < 0x800_0000_0000
    ensures UpdateLimits(memoryMb, cpu).nanoCpus == cpu * 10_000_000
    ensures CreateLimits(memoryMb, cpu) == UpdateLimits(memoryMb, cpu)
  {
    WrapTwice(memoryMb);
  }

  /** Beyond that the limit is still the requested number of bytes up to a multiple of 2^64. */
  lemma LimitIsCongruent(memoryMb: U64, cpu: U32) returns (k: int)
    ensures UpdateLimits(memoryMb, cpu).memory == memoryMb * 1048576 - k * TWO_64
  {
    WrapTwice(memoryMb);
    var x := memoryMb * 1048576;
    k := x / TWO_64 + if Wrap(x) < TWO_63 then 0 else 1;
  }

  // ------------------------------------------------------------------------------------------------
  // Container names.

  function Dashless(uuid: string): string {
    if uuid == "" then "" else (if uuid[0] == '-' then "" else [uuid[0]]) + Dashless(uuid[1..])
  }

  function Short(uuid: string): string {
    var d := Dashless(uuid);
    d[..if |d| < 8 then |d| else 8]
  }

  function ContainerName(uuid: string): string {
    "nexus-" + Short(uuid)
  }

  lemma NamesClashIff(u: string, v: string)
    ensures ContainerName(u) == ContainerName(v) <==> Short(u) == Short(v)
  {
    assert ContainerName(u)[6..] == Short(u) && ContainerName(v)[6..] == Short(v);
  }

  lemma {:induction false} DashlessConcat(p: string, rest: string)
    requires '-' !in p
    ensures Dashless(p + rest) == p + Dashless(rest)
  {
    if p == "" {
      assert p + rest == rest;
    } else {
      assert (p + rest)[0] == p[0] && (p + rest)[1..] == p[1..] + rest;
      DashlessConcat(p[1..], rest);
    }
  }

  /** A uuid starts with eight characters before its first dash: they are what the name keeps. */
  lemma ShortOfUuid(p: string, rest: string)
    requires '-' !in p && |p| == 8
    ensures Short(p + rest) == p && ContainerName(p + rest) == "nexus-" + p
  {
    DashlessConcat(p, rest);
  }

  // ------------------------------------------------------------------------------------------------
  // The daemon: registry and containers.

  type Containers = map<string, Limits>

  datatype Daemon = Daemon(registry: State, containers: Containers)

  /** Limits are u64 fields; Wrap only says so, it changes no value of that width. */
  function LimitsOf(c: ServerConfig): Limits {
    CreateLimits(Wrap(c.memoryLimit), Wrap(c.cpuLimit))
  }

  lemma LimitsOfIs(c: ServerConfig)
    ensures LimitsOf(c) == Limits(AsI64(Wrap(c.memoryLimit * 1048576)), AsI64(Wrap(c.cpuLimit * 10_000_000)))
  {
    WrapTwice(Wrap(c.memoryLimit));
    WrapBytes(c.memoryLimit);
    WrapCpu(c.cpuLimit);
  }

  lemma WrapBytes(x: int)
    ensures Wrap(Wrap(x) * 1048576) == Wrap(x * 1048576)
  {
    var r := Wrap(x);
    WrapIs(x * 1048576, x / TWO_64 * 1048576 + r * 1048576 / TWO_64, Wrap(r * 1048576));
  }

  lemma WrapCpu(x: int)
    ensures Wrap(Wrap(x) * 10_000_000) == Wrap(x * 10_000_000)
  {
    var r := Wrap(x);
    WrapIs(x * 10_000_000, x / TWO_64 * 10_000_000 + r * 10_000_000 / TWO_64, Wrap(r * 10_000_000));
  }

  /** Configurations are stored under their own uuid. */
  ghost predicate WellStored(configs: Configs) {
    forall u :: u in configs ==> configs[u].uuid == u
  }

  /** docker create: refused by Docker when the name is taken. */
  function MakeContainer(cs: Containers, c: ServerConfig): Containers {
    if ContainerName(c.uuid) in cs then cs else cs[ContainerName(c.uuid) := LimitsOf(c)]
  }

  function WithLimits(c: ServerConfig, memoryMb: U64, cpu: U32, diskMb: U64): ServerConfig {
    c.(memoryLimit := memoryMb, cpuLimit := cpu, diskLimit := diskMb)
  }

  /** PUT resources over HTTP: only the limits in the body, both u64, and Docker keeps the others. */
  function RestLimits(running: Limits, memoryMb: Option<U64>, cpu: Option<U64>): Limits {
    Limits(
      if memoryMb.Some? then AsI64(Wrap(Wrap(memoryMb.value * 1024) * 1024)) else running.memory,
      if cpu.Some? then AsI64(Wrap(cpu.value * 10_000_000)) else running.nanoCpus)
  }

  /** update_resources: Docker first; the registry only if Docker accepted and the server is registered. */
  function Update(d: Daemon, u: Uuid, memoryMb: U64, cpu: U32, diskMb: U64): Daemon {
    var name := ContainerName(u);
    if name !in d.containers then d
    else
      var live := d.(containers := d.containers[name := UpdateLimits(memoryMb, cpu)]);
      if u !in d.registry.memory then live
      else live.(registry := Registry.Apply(d.registry, Store(WithLimits(d.registry.memory[u], memoryMb, cpu, diskMb))))
  }

  /** send_power_action with PowerStart: rebuild a missing container from the registry, then start it. */
  function Start(d: Daemon, u: Uuid): Result<Daemon, ()> {
    if ContainerName(u) in d.containers then Ok(d)
    else if u !in d.registry.memory then Err(())
    else Ok(d.(containers := MakeContainer(d.containers, d.registry.memory[u])))
  }

  class WingsGrpcService {
    const state: AppState
    var containers: Containers

    ghost predicate Valid()
      reads this, state
    {
      WellStored(state.serverConfigs)
    }

    ghost function View(): Daemon
      reads this, state
    {
      Daemon(State(state.serverConfigs, state.disk), containers)
    }

    constructor (state: AppState)
      requires WellStored(state.serverConfigs)
      ensures Valid() && this.state == state && containers == map[]
    {
      this.state := state;
      containers := map[];
    }

    method UpdateResources(u: Uuid, memoryMb: U64, cpu: U32, diskMb: U64) returns (ok: bool)
      requires Valid()
      modifies this, state
      ensures Valid()
      ensures View() == Update(old(View()), u, memoryMb, cpu, diskMb)
      ensures ok <==> ContainerName(u) in old(containers)
      ensures !ok ==> containers == old(containers)
      ensures ok ==>
        var limits := Limits(AsI64(Wrap(memoryMb * 1048576)), cpu * 10_000_000);
        containers == old(containers)[ContainerName(u) := limits]
      ensures !(ok && u in old(state.serverConfigs)) ==>
        state.serverConfigs == old(state.serverConfigs) && state.disk == old(state.disk)
      ensures ok && u in old(state.serverConfigs) ==>
        var c := old(state.serverConfigs)[u].(memoryLimit := memoryMb, cpuLimit := cpu, diskLimit := diskMb);
        state.serverConfigs == old(state.serverConfigs)[u := c] && state.disk == old(state.disk)[u := Some(Json(c))]
    {
      WrapTwice(memoryMb);
      var name := ContainerName(u);
      if name !in containers {
        return false;
      }
      containers := containers[name := UpdateLimits(memoryMb, cpu)];
      var stored := state.GetServerConfig(u);
      if stored.Some? {
        var cfg := stored.value.(memoryLimit := memoryMb, cpuLimit := cpu, diskLimit := diskMb);
        assert cfg.uuid == stored.value.uuid;
        state.StoreServerConfig(cfg);
      }
      return true;
    }

    method PowerStart(u: Uuid) returns (ok: bool)
      requires Valid()
      modifies this`containers
      ensures Valid()
      ensures ok <==> Start(old(View()), u).Ok?
      ensures View() == if ok then Start(old(View()), u).value else old(View())
      ensures ok <==> ContainerName(u) in old(containers) || u in state.serverConfigs
      ensures !ok || ContainerName(u) in old(containers) ==> containers == old(containers)
      ensures ok && ContainerName(u) !in old(containers) ==>
        var c := state.serverConfigs[u];
        var limits := Limits(AsI64(Wrap(c.memoryLimit * 1048576)), AsI64(Wrap(c.cpuLimit * 10_000_000)));
        containers == old(containers)[ContainerName(u) := limits]
    {
      var name := ContainerName(u);
      if name !in containers {
        var cfg := state.GetServerConfig(u);
        if cfg.None? {
          return false;
        }
        LimitsOfIs(cfg.value);
        containers := containers[ContainerName(cfg.value.uuid) := LimitsOf(cfg.value)];
      }
      return true;
    }
  }

  // ------------------------------------------------------------------------------------------------
  // Runs of the daemon.

  datatype Step =
    | Lose(name: string)
    | RestartDaemon(order: seq<Uuid>)
    | PowerOn(uuid: Uuid)
    | UpdateLive(uuid: Uuid, memoryMb: U64, cpu: U32, diskMb: U64)
    | Create(config: ServerConfig)
    | StoreOnly(config: ServerConfig)
    | Delete(uuid: Uuid)
    | RestCreate(config: ServerConfig)
    | RestUpdate(uuid: Uuid, memoryBody: Option<U64>, cpuBody: Option<U64>)
    | RestDelete(uuid: Uuid)

  /** One handler, or the environment losing a container or restarting the daemon. StoreOnly is sync and reinstall;
      the Rest handlers belong to the HTTP interface and never touch the registry. */
  ghost function Next(d: Daemon, step: Step): Daemon {
    match step
    case Lose(name) => d.(containers := d.containers - {name})
    case RestartDaemon(order) =>
      if IsOrder(d.registry.disk, order) then d.(registry := Registry.Apply(d.registry, Restart(order))) else d
    case PowerOn(u) => var r := Start(d, u); if r.Ok? then r.value else d
    case UpdateLive(u, memoryMb, cpu, diskMb) => Update(d, u, memoryMb, cpu, diskMb)
    case Create(c) => Daemon(Registry.Apply(d.registry, Store(c)), MakeContainer(d.containers, c))
    case StoreOnly(c) => d.(registry := Registry.Apply(d.registry, Store(c)))
    case Delete(u) =>
      if ContainerName(u) !in d.containers then d
      else Daemon(Registry.Apply(d.registry, Remove(u)), d.containers - {ContainerName(u)})
    case RestCreate(c) => d.(containers := MakeContainer(d.containers, c))
    case RestUpdate(u, memoryMb, cpu) =>
      if ContainerName(u) !in d.containers then d
      else
        var running := d.containers[ContainerName(u)];
        d.(containers := d.containers[ContainerName(u) := RestLimits(running, memoryMb, cpu)])
    case RestDelete(u) => d.(containers := d.containers - {ContainerName(u)})
  }

  ghost predicate Good(d: Daemon) {
    Synced(d.registry) && WellStored(d.registry.memory)
  }

  lemma NextKeepsGood(d: Daemon, step: Step)
    requires Good(d)
    ensures Good(Next(d, step))
  {
    match step
    case RestartDaemon(order) =>
      if IsOrder(d.registry.disk, order) {
        LoadIsOnDisk(d.registry.disk, order);
      }
    case UpdateLive(u, memoryMb, cpu, diskMb) =>
      if u in d.registry.memory {
        ApplyKeepsSynced(d.registry, Store(WithLimits(d.registry.memory[u], memoryMb, cpu, diskMb)));
      }
    case Create(c) => ApplyKeepsSynced(d.registry, Store(c));
    case StoreOnly(c) => ApplyKeepsSynced(d.registry, Store(c));
    case Delete(u) => ApplyKeepsSynced(d.registry, Remove(u));
    case _ =>
  }

  ghost function Steps(d: Daemon, steps: seq<Step>): Daemon
    decreases |steps|
  {
    if steps == [] then d else Steps(Next(d, steps[0]), steps[1..])
  }

  /** Not a handler of `u` other than start, nor one of a server with the same container name. */
  predicate Quiet(step: Step, u: Uuid) {
    match step
    case Lose(_) => true
    case RestartDaemon(_) => true
    case PowerOn(v) => v == u || ContainerName(v) != ContainerName(u)
    case UpdateLive(v, _, _, _) => ContainerName(v) != ContainerName(u)
    case Create(c) => ContainerName(c.uuid) != ContainerName(u)
    case StoreOnly(c) => ContainerName(c.uuid) != ContainerName(u)
    case Delete(v) => ContainerName(v) != ContainerName(u)
    case RestCreate(c) => ContainerName(c.uuid) != ContainerName(u)
    case RestUpdate(v, _, _) => ContainerName(v) != ContainerName(u)
    case RestDelete(v) => ContainerName(v) != ContainerName(u)
  }

  /** The registry remembers these limits, and the container, if there is one, runs with them. */
  ghost predicate Remembers(d: Daemon, u: Uuid, limits: Limits) {
    && Good(d) && u in d.registry.memory && LimitsOf(d.registry.memory[u]) == limits
    && (ContainerName(u) in d.containers ==> d.containers[ContainerName(u)] == limits)
  }

  lemma QuietKeepsRegistration(d: Daemon, step: Step, u: Uuid)
    requires Good(d) && Quiet(step, u) && u in d.registry.memory
    ensures var d' := Next(d, step);
      u in d'.registry.memory && d'.registry.memory[u] == d.registry.memory[u]
  {
    if step.RestartDaemon? && IsOrder(d.registry.disk, step.order) {
      LoadIsOnDisk(d.registry.disk, step.order);
    }
  }

  lemma NextKeepsLimits(d: Daemon, step: Step, u: Uuid, limits: Limits)
    requires Remembers(d, u, limits) && Quiet(step, u)
    ensures Remembers(Next(d, step), u, limits)
  {
    NextKeepsGood(d, step);
    QuietKeepsRegistration(d, step, u);
  }

  lemma {:induction false} StepsKeepLimits(d: Daemon, steps: seq<Step>, u: Uuid, limits: Limits)
    requires Remembers(d, u, limits) && forall i :: 0 <= i < |steps| ==> Quiet(steps[i], u)
    ensures Remembers(Steps(d, steps), u, limits)
    decreases |steps|
  {
    if steps != [] {
      NextKeepsLimits(d, steps[0], u, limits);
      StepsKeepLimits(Next(d, steps[0]), steps[1..], u, limits);
    }
  }

  lemma UpdateRemembers(d: Daemon, u: Uuid, memoryMb: U64, cpu: U32, diskMb: U64)
    requires Good(d) && u in d.registry.memory && ContainerName(u) in d.containers
    ensures Remembers(Update(d, u, memoryMb, cpu, diskMb), u, UpdateLimits(memoryMb, cpu))
  {
    NextKeepsGood(d, UpdateLive(u, memoryMb, cpu, diskMb));
    LimitsAreExactIff(memoryMb, cpu);
  }

  /** MAIN RESULT. After a live update of a registered server, any run that loses containers, restarts the daemon,
      starts servers and handles other servers - in any order - leaves the limits in force: starting the server
      gives a container with exactly the limits that were set live. */
  lemma LiveLimitsSurvive(d: Daemon, u: Uuid, memoryMb: U64, cpu: U32, diskMb: U64, steps: seq<Step>)
    requires Good(d) && u in d.registry.memory && ContainerName(u) in d.containers
    requires forall i :: 0 <= i < |steps| ==> Quiet(steps[i], u)
    ensures var r := Start(Steps(Update(d, u, memoryMb, cpu, diskMb), steps), u);
      && r.Ok? && ContainerName(u) in r.value.containers
      && r.value.containers[ContainerName(u)] == UpdateLimits(memoryMb, cpu)
  {
    UpdateRemembers(d, u, memoryMb, cpu, diskMb);
    StepsKeepLimits(Update(d, u, memoryMb, cpu, diskMb), steps, u, UpdateLimits(memoryMb, cpu));
  }

  lemma {:induction false} StepsKeepRegistration(d: Daemon, steps: seq<Step>, u: Uuid)
    requires Good(d) && u in d.registry.memory && forall i :: 0 <= i < |steps| ==> Quiet(steps[i], u)
    ensures var d' := Steps(d, steps);
      Good(d') && u in d'.registry.memory && d'.registry.memory[u] == d.registry.memory[u]
    decreases |steps|
  {
    if steps != [] {
      NextKeepsGood(d, steps[0]);
      QuietKeepsRegistration(d, steps[0], u);
      StepsKeepRegistration(Next(d, steps[0]), steps[1..], u);
    }
  }

  lemma ComesBack(d: Daemon, u: Uuid)
    requires Good(d) && u in d.registry.memory
    ensures var r := Start(Next(d, Lose(ContainerName(u))), u);
      && r.Ok? && ContainerName(u) in r.value.containers
      && r.value.containers[ContainerName(u)] == LimitsOf(d.registry.memory[u])
  {
  }

  /** Over HTTP a limit that the body leaves out keeps its value. */
  lemma RestUpdateKeepsOthers(d: Daemon, u: Uuid, memoryMb: Option<U64>, cpu: Option<U64>)
    requires ContainerName(u) in d.containers
    ensures var d', name := Next(d, RestUpdate(u, memoryMb, cpu)), ContainerName(u);
      && d'.containers - {name} == d.containers - {name} && name in d'.containers
      && d'.containers[name].memory ==
           (if memoryMb.None? then d.containers[name].memory else AsI64(Wrap(memoryMb.value * 1048576)))
      && d'.containers[name].nanoCpus ==
           (if cpu.None? then d.containers[name].nanoCpus else AsI64(Wrap(cpu.value * 10_000_000)))
  {
    if memoryMb.Some? {
      WrapTwice(memoryMb.value);
    }
  }

  lemma RestUpdateLeavesRegistry(d: Daemon, u: Uuid, memoryMb: Option<U64>, cpu: Option<U64>)
    ensures Next(d, RestUpdate(u, memoryMb, cpu)).registry == d.registry
  {
  }

  /** A server that is created and deleted again leaves no trace beside what others registered. */
  lemma DeleteUndoesCreate(d: Daemon, c: ServerConfig)
    requires Good(d)
    ensures var d' := Next(Next(d, Create(c)), Delete(c.uuid));
      && d'.registry.memory == d.registry.memory - {c.uuid}
      && d'.containers == d.containers - {ContainerName(c.uuid)}
      && c.uuid in d'.registry.disk && d'.registry.disk[c.uuid] == None
  {
    assert d.registry.memory[c.uuid := c] - {c.uuid} == d.registry.memory - {c.uuid};
  }

  /** A sync or reinstall changes no container; its limits are in force once the container is lost and started. A
      create over HTTP makes the container and registers nothing, so then there is nothing to start from. */
  lemma StoredLimitsComeBack(d: Daemon, c: ServerConfig)
    requires Good(d)
    ensures Next(d, StoreOnly(c)).containers == d.containers
    ensures var r := Start(Next(Next(d, StoreOnly(c)), Lose(ContainerName(c.uuid))), c.uuid);
      r.Ok? && r.value.containers == d.containers[ContainerName(c.uuid) := LimitsOf(c)]
    ensures ContainerName(c.uuid) !in d.containers ==>
      Next(d, RestCreate(c)).containers == d.containers[ContainerName(c.uuid) := LimitsOf(c)]
    ensures Start(Next(Next(d, RestCreate(c)), Lose(ContainerName(c.uuid))), c.uuid).Ok? <==>
      c.uuid in d.registry.memory
  {
    var name := ContainerName(c.uuid);
    assert (d.containers - {name})[name := LimitsOf(c)] == d.containers[name := LimitsOf(c)];
  }

  /** MAIN RESULT. The HTTP handler does not write the registry. Once its container is lost, after any run as above,
      the server comes back with the limits the registry holds; they are the ones set over HTTP exactly when the
      registry had them already. */
  lemma RestLimitsSurviveIff(d: Daemon, u: Uuid, memoryMb: Option<U64>, cpu: Option<U64>, steps: seq<Step>)
    requires Good(d) && u in d.registry.memory && ContainerName(u) in d.containers
    requires forall i :: 0 <= i < |steps| ==> Quiet(steps[i], u)
    ensures var name := ContainerName(u);
      var asked := RestLimits(d.containers[name], memoryMb, cpu);
      var r := Start(Next(Steps(Next(d, RestUpdate(u, memoryMb, cpu)), steps), Lose(name)), u);
      && r.Ok? && name in r.value.containers
      && r.value.containers[name] == LimitsOf(d.registry.memory[u])
      && (r.value.containers[name] == asked <==> LimitsOf(d.registry.memory[u]) == asked)
  {
    var live := Next(d, RestUpdate(u, memoryMb, cpu));
    RestUpdateLeavesRegistry(d, u, memoryMb, cpu);
    StepsKeepRegistration(live, steps, u);
    ComesBack(Steps(live, steps), u);
  }

  // ------------------------------------------------------------------------------------------------
  // Servers whose names clash.

  /** MAIN RESULT. What a handler of v does to the container of u. A live update of v changes limits of u that differ
      from the new ones, a delete of v removes the container of u, and a start of v makes one where u has none,
      exactly when the two uuids agree in the first eight characters other than dashes. */
  lemma TouchesOtherIff(d: Daemon, u: Uuid, v: Uuid, memoryMb: U64, cpu: U32, diskMb: U64)
    requires Good(d) && v in d.registry.memory
    ensures ContainerName(u) in d.containers && ContainerName(v) in d.containers ==>
      var d' := Next(d, UpdateLive(v, memoryMb, cpu, diskMb));
      && ContainerName(u) in d'.containers
      && (d.containers[ContainerName(u)] != UpdateLimits(memoryMb, cpu) ==>
            (d'.containers[ContainerName(u)] != d.containers[ContainerName(u)] <==> Short(u) == Short(v)))
    ensures ContainerName(u) in d.containers && ContainerName(v) in d.containers ==>
      (ContainerName(u) !in Next(d, Delete(v)).containers <==> Short(u) == Short(v))
    ensures ContainerName(u) !in d.containers ==>
      (ContainerName(u) in Next(d, PowerOn(v)).containers <==> Short(u) == Short(v))
  {
    NamesClashIff(u, v);
  }

  const CLASHING: (string, string) :=
    ("0b5c7a1e" + "-3f0d-4c55-9d0e-7a3d1c2b4e5f", "0b5c7a1e" + "-8c1a-4b7e-a2f4-5d6e7f8091a2")

  /** Two uuids that clash. */
  lemma ClashingUuids()
    ensures CLASHING.0 != CLASHING.1 && Short(CLASHING.0) == Short(CLASHING.1)
    ensures SingleComponent(CLASHING.0) && SingleComponent(CLASHING.1)
  {
    ShortOfUuid("0b5c7a1e", "-3f0d-4c55-9d0e-7a3d1c2b4e5f");
    ShortOfUuid("0b5c7a1e", "-8c1a-4b7e-a2f4-5d6e7f8091a2");
    assert CLASHING.0[9] != CLASHING.1[9];
  }

  /** Of two servers whose names clash, deleting one takes the container of the other away, which a start brings back
      from its own registration; and where the container is lost, starting one leaves the other, which counts as
      started, with the limits of the first. */
  lemma ClashTouchesBoth(d: Daemon, u: Uuid, v: Uuid)
    requires Good(d) && u != v && Short(u) == Short(v)
    requires u in d.registry.memory && v in d.registry.memory && ContainerName(u) in d.containers
    ensures var deleted := Next(d, Delete(v));
      && ContainerName(u) !in deleted.containers
      && u in deleted.registry.memory && deleted.registry.memory[u] == d.registry.memory[u]
    ensures var started := Next(Next(d, Lose(ContainerName(u))), PowerOn(v));
      && Start(started, u) == Ok(started)
      && started.containers[ContainerName(u)] == LimitsOf(d.registry.memory[v])
  {
    NamesClashIff(u, v);
  }
}

/** The install and suspend columns of one server row, written by create, reinstall, suspend, unsuspend and by
    install reports that arrive over two routes, while power requests read them. Every request that reads before it
    writes does so across an await. */
module Lifecycle {
  import opened Common
  import opened Runs

  datatype Status = Installing | InstallFailed | Suspended

  /** `installed` is 0 for not installed, 1 for installed and 2 for failed. */
  datatype Row = Row(status: Option<Status>, installed: nat)

  /** What has happened to a row, in the order of the writes (and of the forwarded power actions). */
  datatype Happening =
    | Created
    | CreateFailed
    | Report(success: bool)
    | SuspendWritten
    | UnsuspendWritten
    | Reinstalled
    | Forwarded

  function Write(row: Row, h: Happening): Row {
    match h
    case Created => Row(Some(Installing), 0)
    case CreateFailed => row.(status := Some(InstallFailed))
    case Report(success) => if success then Row(None, 1) else Row(Some(InstallFailed), 2)
    case SuspendWritten => row.(status := Some(Suspended))
    case UnsuspendWritten => row.(status := None)
    case Reinstalled => row.(installed := 0)
    case Forwarded => row
  }

  predicate PowerAllowed(row: Row) {
    row.status != Some(Installing) && row.status != Some(Suspended)
  }

  // ------------------------------------------------------------------------------------------------
  // The methods of the service and of the event handlers, on the rows they update.

  type Rows = map<string, Row>

  datatype Refusal = NotFound | AlreadySuspended | NotSuspended | StillInstalling | IsSuspended

  /** UPDATE servers ... WHERE uuid = key: no row, no effect. */
  function Update(rows: Rows, key: string, h: Happening): Rows {
    if key in rows then rows[key := Write(rows[key], h)] else rows
  }

  /** The server rows. A guard looks at the status that the request loaded, `seen`; the write comes after an await. */
  class ServerRepository {
    var rows: Rows

    constructor ()
      ensures rows == map[]
    {
      rows := map[];
    }

    method Create(key: string)
      requires key !in rows
      modifies this
      ensures rows == old(rows)[key := Write(Row(None, 0), Created)] == old(rows)[key := Row(Some(Installing), 0)]
    {
      rows := rows[key := Row(Some(Installing), 0)];
    }

    /** The catch block of create, after Wings has refused the server. */
    method MarkInstallFailed(key: string)
      modifies this
      ensures rows == Update(old(rows), key, CreateFailed)
      ensures rows == if key in old(rows)
                      then old(rows)[key := old(rows)[key].(status := Some(InstallFailed))] else old(rows)
    {
      if key in rows {
        rows := rows[key := rows[key].(status := Some(InstallFailed))];
      }
    }

    /** POST install-status: the callback the install container makes. */
    method UpdateInstallStatus(key: string, reported: string) returns (r: Result<(), Refusal>)
      modifies this
      ensures rows == Update(old(rows), key, Report(reported == "success"))
      ensures r == if key in old(rows) then Ok(()) else Err(NotFound)
      ensures r.Err? ==> rows == old(rows)
      ensures r.Ok? ==>
        rows == old(rows)[key := if reported == "success" then Row(None, 1) else Row(Some(InstallFailed), 2)]
    {
      if key !in rows {
        return Err(NotFound);
      }
      if reported == "success" {
        rows := rows[key := rows[key].(installed := 1, status := None)];
      } else {
        rows := rows[key := rows[key].(installed := 2, status := Some(InstallFailed))];
      }
      return Ok(());
    }

    /** The same report over the event stream. */
    method HandleInstallComplete(key: string)
      modifies this
      ensures rows == Update(old(rows), key, Report(true))
      ensures rows == if key in old(rows) then old(rows)[key := Row(None, 1)] else old(rows)
    {
      if key in rows {
        rows := rows[key := rows[key].(installed := 1, status := None)];
      }
    }

    method HandleInstallFailed(key: string)
      modifies this
      ensures rows == Update(old(rows), key, Report(false))
      ensures rows == if key in old(rows) then old(rows)[key := Row(Some(InstallFailed), 2)] else old(rows)
    {
      if key in rows {
        rows := rows[key := rows[key].(installed := 2, status := Some(InstallFailed))];
      }
    }

    method Suspend(key: string, seen: Option<Status>) returns (r: Result<(), Refusal>)
      modifies this
      ensures r == if seen == Some(Suspended) then Err(AlreadySuspended) else Ok(())
      ensures rows == if r.Ok? then Update(old(rows), key, SuspendWritten) else old(rows)
      ensures rows == if r.Ok? && key in old(rows)
                      then old(rows)[key := old(rows)[key].(status := Some(Suspended))] else old(rows)
    {
      if seen == Some(Suspended) {
        return Err(AlreadySuspended);
      }
      if key in rows {
        rows := rows[key := rows[key].(status := Some(Suspended))];
      }
      return Ok(());
    }

    method Unsuspend(key: string, seen: Option<Status>) returns (r: Result<(), Refusal>)
      modifies this
      ensures r == if seen == Some(Suspended) then Ok(()) else Err(NotSuspended)
      ensures rows == if r.Ok? then Update(old(rows), key, UnsuspendWritten) else old(rows)
      ensures rows == if r.Ok? && key in old(rows)
                      then old(rows)[key := old(rows)[key].(status := None)] else old(rows)
    {
      if seen != Some(Suspended) {
        return Err(NotSuspended);
      }
      if key in rows {
        rows := rows[key := rows[key].(status := None)];
      }
      return Ok(());
    }

    method Reinstall(key: string)
      modifies this
      ensures rows == Update(old(rows), key, Reinstalled)
      ensures rows == if key in old(rows) then old(rows)[key := old(rows)[key].(installed := 0)] else old(rows)
    {
      if key in rows {
        rows := rows[key := rows[key].(installed := 0)];
      }
    }

    method CheckPower(key: string) returns (r: Result<(), Refusal>)
      ensures r == if key !in rows then Err(NotFound)
                   else if rows[key].status == Some(Installing) then Err(StillInstalling)
                   else if rows[key].status == Some(Suspended) then Err(IsSuspended)
                   else Ok(())
      ensures key in rows ==> (r.Ok? <==> PowerAllowed(rows[key]))
    {
      if key !in rows {
        return Err(NotFound);
      }
      if rows[key].status == Some(Installing) {
        return Err(StillInstalling);
      }
      if rows[key].status == Some(Suspended) {
        return Err(IsSuspended);
      }
      return Ok(());
    }
  }

  // ------------------------------------------------------------------------------------------------
  // Interleavings.

  type Id = nat

  /** Requests that have passed their check and have not written (or forwarded) yet. */
  datatype Pending = Suspending | Unsuspending | Powering

  datatype State = State(row: Row, pending: map<Id, Pending>, history: seq<Happening>)

  datatype Event =
    | CreateFails
    | Callback(reported: string)
    | StreamComplete
    | StreamFailed
    | ReinstallRequest
    | StartSuspend(id: Id) | StartUnsuspend(id: Id) | StartPower(id: Id)
    | Finish(id: Id)
    | Drop(id: Id)

  const NEW := State(Write(Row(None, 0), Created), map[], [Created])

  function Record(s: State, h: Happening): State {
    s.(row := Write(s.row, h), history := s.history + [h])
  }

  function Begin(s: State, id: Id, passes: bool, p: Pending): State {
    if id !in s.pending && passes then s.(pending := s.pending[id := p]) else s
  }

  function Outcome(p: Pending): Happening {
    match p
    case Suspending => SuspendWritten
    case Unsuspending => UnsuspendWritten
    case Powering => Forwarded
  }

  function Apply(s: State, e: Event): State {
    match e
    case CreateFails => Record(s, CreateFailed)
    case Callback(reported) => Record(s, Report(reported == "success"))
    case StreamComplete => Record(s, Report(true))
    case StreamFailed => Record(s, Report(false))
    case ReinstallRequest => Record(s, Reinstalled)
    case StartSuspend(id) => Begin(s, id, s.row.status != Some(Suspended), Suspending)
    case StartUnsuspend(id) => Begin(s, id, s.row.status == Some(Suspended), Unsuspending)
    case StartPower(id) => Begin(s, id, PowerAllowed(s.row), Powering)
    case Finish(id) =>
      if id !in s.pending then s
      else Record(s, Outcome(s.pending[id])).(pending := s.pending - {id})
    case Drop(id) => s.(pending := s.pending - {id})
  }

  function Run(s: State, events: seq<Event>): State {
    Fold(Apply, s, events)
  }

  /** The guards of the requests are those of the service, on the row as it is when the request begins. */
  lemma GuardsOfRequests(s: State, id: Id)
    requires id !in s.pending
    ensures id in Apply(s, StartSuspend(id)).pending <==> s.row.status != Some(Suspended)
    ensures id in Apply(s, StartUnsuspend(id)).pending <==> s.row.status == Some(Suspended)
    ensures id in Apply(s, StartPower(id)).pending <==> s.row.status == None || s.row.status == Some(InstallFailed)
    ensures forall e :: e in {StartSuspend(id), StartUnsuspend(id), StartPower(id)} ==> Apply(s, e).row == s.row
  {
    if s.row.status.Some? {
      match s.row.status.value {
        case Installing =>
        case InstallFailed =>
        case Suspended =>
      }
    }
  }

  /** The two routes of an install report write the same; a failed create keeps `installed`, a reinstall the status. */
  lemma WritesOfReports(s: State, reported: string)
    ensures Apply(s, Callback(reported)).row
         == if reported == "success" then Row(None, 1) else Row(Some(InstallFailed), 2)
    ensures Apply(s, StreamComplete).row == Row(None, 1)
    ensures Apply(s, StreamFailed).row == Row(Some(InstallFailed), 2)
    ensures Apply(s, CreateFails).row == Row(Some(InstallFailed), s.row.installed)
    ensures Apply(s, ReinstallRequest).row == Row(s.row.status, 0)
  {
  }

  /** A request that has passed its guard writes whatever the row has become; a power action writes nothing. */
  lemma WritesOfRequests(s: State, id: Id)
    requires id in s.pending
    ensures Apply(s, Finish(id)).row ==
      match s.pending[id]
      case Suspending => Row(Some(Suspended), s.row.installed)
      case Unsuspending => Row(None, s.row.installed)
      case Powering => s.row
    ensures id !in Apply(s, Finish(id)).pending
  {
  }

  predicate SetsCode(h: Happening) {
    h.Created? || h.Reinstalled? || h.Report?
  }

  function Code(h: Happening): nat {
    if !h.Report? then 0 else if h.success then 1 else 2
  }

  predicate SetsStatus(h: Happening) {
    h.CreateFailed? || h.Report? || h.SuspendWritten? || h.UnsuspendWritten?
  }

  /** The latest happening that sets `installed` is at position i. */
  ghost predicate LatestCodeAt(history: seq<Happening>, i: int) {
    && 0 <= i < |history| && SetsCode(history[i])
    && forall j :: i < j < |history| ==> !SetsCode(history[j])
  }

  ghost predicate IsLatestCode(history: seq<Happening>, code: nat) {
    exists i :: LatestCodeAt(history, i) && Code(history[i]) == code
  }

  /** The status that a happening leaves, if it sets one. */
  function StatusAfter(h: Happening): Option<Status> {
    match h
    case Created => Some(Installing)
    case Report(success) => if success then None else Some(InstallFailed)
    case SuspendWritten => Some(Suspended)
    case UnsuspendWritten => None
    case _ => Some(InstallFailed)
  }

  /** The latest happening that sets `status` is at position i. */
  ghost predicate LatestStatusAt(history: seq<Happening>, i: int) {
    && 0 <= i < |history| && (history[i].Created? || SetsStatus(history[i]))
    && forall j :: i < j < |history| ==> !(history[j].Created? || SetsStatus(history[j]))
  }

  ghost predicate IsLatestStatus(history: seq<Happening>, status: Option<Status>) {
    exists i :: LatestStatusAt(history, i) && StatusAfter(history[i]) == status
  }

  /** A power action may be forwarded only after one of these. */
  predicate Unlocks(h: Happening) {
    h.CreateFailed? || h.Report? || h.UnsuspendWritten?
  }

  ghost predicate Unlocked(history: seq<Happening>) {
    exists j :: 0 <= j < |history| && Unlocks(history[j])
  }

  ghost predicate EverySuspensionFirst(history: seq<Happening>) {
    forall j :: 0 <= j < |history| && history[j].UnsuspendWritten? ==> SuspendWritten in history[..j]
  }

  ghost predicate EveryForwardUnlocked(history: seq<Happening>) {
    forall j :: 0 <= j < |history| && history[j].Forwarded? ==> Unlocked(history[..j])
  }

  ghost predicate StatusUntouched(history: seq<Happening>) {
    forall j :: 0 <= j < |history| ==> !SetsStatus(history[j])
  }

  ghost predicate Inv(s: State) {
    && IsLatestCode(s.history, s.row.installed)
    && IsLatestStatus(s.history, s.row.status)
    && (s.row.status == Some(Installing) <==> StatusUntouched(s.history))
    && (s.row.status == Some(Suspended) ==> SuspendWritten in s.history)
    && (PowerAllowed(s.row) ==> Unlocked(s.history))
    && (forall id :: id in s.pending && s.pending[id].Unsuspending? ==> SuspendWritten in s.history)
    && (forall id :: id in s.pending && s.pending[id].Powering? ==> Unlocked(s.history))
    && EverySuspensionFirst(s.history)
    && EveryForwardUnlocked(s.history)
  }

  lemma RecordKeepsCode(s: State, h: Happening)
    requires IsLatestCode(s.history, s.row.installed) && h != Created
    ensures IsLatestCode(Record(s, h).history, Record(s, h).row.installed)
  {
    var i :| LatestCodeAt(s.history, i) && Code(s.history[i]) == s.row.installed;
    assert LatestCodeAt(Record(s, h).history, if SetsCode(h) then |s.history| else i);
  }

  lemma RecordKeepsStatus(s: State, h: Happening)
    requires IsLatestStatus(s.history, s.row.status) && h != Created
    ensures IsLatestStatus(Record(s, h).history, Record(s, h).row.status)
  {
    var i :| LatestStatusAt(s.history, i) && StatusAfter(s.history[i]) == s.row.status;
    assert LatestStatusAt(Record(s, h).history, if SetsStatus(h) then |s.history| else i);
  }

  lemma RecordKeepsUnlocked(history: seq<Happening>, h: Happening)
    ensures Unlocked(history + [h]) <==> Unlocked(history) || Unlocks(h)
  {
    var longer := history + [h];
    if Unlocks(h) {
      assert Unlocks(longer[|history|]);
    }
    if Unlocked(history) {
      var j :| 0 <= j < |history| && Unlocks(history[j]);
      assert Unlocks(longer[j]);
    }
  }

  lemma RecordKeepsUntouched(history: seq<Happening>, h: Happening)
    ensures StatusUntouched(history + [h]) <==> StatusUntouched(history) && !SetsStatus(h)
  {
    var longer := history + [h];
    assert longer[|history|] == h && forall j :: 0 <= j < |history| ==> longer[j] == history[j];
  }

  lemma RecordKeepsOrder(history: seq<Happening>, h: Happening)
    requires EverySuspensionFirst(history) && EveryForwardUnlocked(history)
    requires h.Forwarded? ==> Unlocked(history)
    requires h.UnsuspendWritten? ==> SuspendWritten in history
    ensures EverySuspensionFirst(history + [h]) && EveryForwardUnlocked(history + [h])
  {
    var longer := history + [h];
    assert longer[..|history|] == history;
    assert forall j :: 0 <= j < |history| ==> longer[j] == history[j] && longer[..j] == history[..j];
  }

  lemma RecordKeepsInv(s: State, h: Happening)
    requires Inv(s) && h != Created
    requires h.Forwarded? ==> Unlocked(s.history)
    requires h.UnsuspendWritten? ==> SuspendWritten in s.history
    ensures Inv(Record(s, h))
  {
    RecordKeepsCode(s, h);
    RecordKeepsStatus(s, h);
    RecordKeepsUnlocked(s.history, h);
    RecordKeepsOrder(s.history, h);
    RecordKeepsUntouched(s.history, h);
    assert Record(s, h).history[|s.history|] == h;
    assert forall g :: g in s.history ==> g in Record(s, h).history;
  }

  lemma ApplyKeepsInv(s: State, e: Event)
    requires Inv(s)
    ensures Inv(Apply(s, e))
  {
    match e
    case CreateFails => RecordKeepsInv(s, CreateFailed);
    case Callback(reported) => RecordKeepsInv(s, Report(reported == "success"));
    case StreamComplete => RecordKeepsInv(s, Report(true));
    case StreamFailed => RecordKeepsInv(s, Report(false));
    case ReinstallRequest => RecordKeepsInv(s, Reinstalled);
    case Finish(id) => if id in s.pending { RecordKeepsInv(s, Outcome(s.pending[id])); }
    case _ =>
  }

  lemma {:induction false} RunKeepsInv(s: State, events: seq<Event>)
    requires Inv(s)
    ensures Inv(Run(s, events))
    decreases |events|
  {
    if events != [] {
      ApplyKeepsInv(s, events[0]);
      RunKeepsInv(Apply(s, events[0]), events[1..]);
    }
  }

  lemma NewHasInv()
    ensures Inv(NEW)
  {
    assert LatestCodeAt(NEW.history, 0) && LatestStatusAt(NEW.history, 0);
  }

  /** MAIN RESULT. In every interleaving `installed` is the code of the latest of create, reinstall, success and
      failure, whichever route a report took; and the row says INSTALLING exactly until the first write of a report,
      of a create failure or of a suspension, which is why it then also says installed = 0. */
  lemma InstalledIsLatestCode(events: seq<Event>)
    ensures var s := Run(NEW, events);
      && IsLatestCode(s.history, s.row.installed)
      && (s.row.status == Some(Installing) <==> StatusUntouched(s.history))
      && (s.row.status == Some(Installing) ==> s.row.installed == 0)
  {
    NewHasInv();
    RunKeepsInv(NEW, events);
    var s := Run(NEW, events);
    if s.row.status == Some(Installing) {
      var i :| LatestCodeAt(s.history, i) && Code(s.history[i]) == s.row.installed;
      assert !SetsStatus(s.history[i]);
    }
  }

  lemma {:induction false} HistoryGrows(s: State, events: seq<Event>)
    ensures s.history <= Run(s, events).history
    decreases |events|
  {
    if events != [] {
      HistoryGrows(Apply(s, events[0]), events[1..]);
    }
  }

  /** INSTALLING is left once: no reinstall, unsuspend or late write brings it back. */
  lemma InstallingIsNeverReentered(events: seq<Event>, more: seq<Event>)
    requires Run(NEW, events).row.status != Some(Installing)
    ensures Run(NEW, events + more).row.status != Some(Installing)
  {
    InstalledIsLatestCode(events);
    InstalledIsLatestCode(events + more);
    FoldConcat(Apply, NEW, events, more);
    HistoryGrows(Run(NEW, events), more);
    var before, after := Run(NEW, events).history, Run(NEW, events + more).history;
    var j :| 0 <= j < |before| && SetsStatus(before[j]);
    assert after[j] == before[j];
  }

  /** MAIN RESULT. `power` forwards an action only after a report, a create failure or a lifted suspension; on a
      server that was not suspended before, only after a report or a create failure. */
  lemma PowerWaitsForInstall(events: seq<Event>, i: nat)
    requires i < |Run(NEW, events).history| && Run(NEW, events).history[i] == Forwarded
    ensures var before := Run(NEW, events).history[..i];
      && Unlocked(before)
      && (SuspendWritten !in before ==> exists j :: 0 <= j < i && (before[j].CreateFailed? || before[j].Report?))
  {
    NewHasInv();
    RunKeepsInv(NEW, events);
    var history := Run(NEW, events).history;
    var j :| 0 <= j < |history[..i]| && Unlocks(history[..i][j]);
    if history[j].UnsuspendWritten? {
      assert SuspendWritten in history[..j];
      assert history[..j] == history[..i][..j];
    }
  }

  /** Nothing has been reported and create has not failed. */
  ghost predicate NothingReported(history: seq<Happening>) {
    forall j :: 0 <= j < |history| ==> !history[j].CreateFailed? && !history[j].Report?
  }

  /** MAIN RESULT. In every run power passes its check exactly when the latest happening that set the status is a
      create failure, a report or a lifted suspension. As long as nothing has been reported, that is exactly when the
      latest of suspensions and lifted suspensions is a lifted one. */
  lemma PowerPassesIff(events: seq<Event>)
    ensures var s := Run(NEW, events);
      && (PowerAllowed(s.row) <==> exists i :: LatestStatusAt(s.history, i) && Unlocks(s.history[i]))
      && (NothingReported(s.history) ==>
            (PowerAllowed(s.row) <==> exists i :: LatestStatusAt(s.history, i) && s.history[i] == UnsuspendWritten))
  {
    NewHasInv();
    RunKeepsInv(NEW, events);
    var s := Run(NEW, events);
    var i :| LatestStatusAt(s.history, i) && StatusAfter(s.history[i]) == s.row.status;
    assert forall j :: LatestStatusAt(s.history, j) ==> j == i;
  }

  // ------------------------------------------------------------------------------------------------
  // After which histories can a power action be forwarded?

  predicate Uses(e: Event, id: Id) {
    match e
    case StartSuspend(x) => x == id
    case StartUnsuspend(x) => x == id
    case StartPower(x) => x == id
    case Finish(x) => x == id
    case Drop(x) => x == id
    case _ => false
  }

  function WithPower(s: State, id: Id): State {
    s.(pending := s.pending[id := Powering])
  }

  /** A waiting power request changes nothing for the others. */
  lemma StepBesidePower(s: State, e: Event, id: Id)
    requires id !in s.pending && !Uses(e, id)
    ensures id !in Apply(s, e).pending && Apply(WithPower(s, id), e) == WithPower(Apply(s, e), id)
  {
    match e
    case StartSuspend(x) =>
      assert s.pending[id := Powering][x := Suspending] == s.pending[x := Suspending][id := Powering];
    case StartUnsuspend(x) =>
      assert s.pending[id := Powering][x := Unsuspending] == s.pending[x := Unsuspending][id := Powering];
    case StartPower(x) => assert s.pending[id := Powering][x := Powering] == s.pending[x := Powering][id := Powering];
    case Finish(x) => assert s.pending[id := Powering] - {x} == (s.pending - {x})[id := Powering];
    case Drop(x) => assert s.pending[id := Powering] - {x} == (s.pending - {x})[id := Powering];
    case _ =>
  }

  lemma {:induction false} RunBesidePower(s: State, events: seq<Event>, id: Id)
    requires id !in s.pending && forall k :: 0 <= k < |events| ==> !Uses(events[k], id)
    ensures id !in Run(s, events).pending && Run(WithPower(s, id), events) == WithPower(Run(s, events), id)
    decreases |events|
  {
    if events != [] {
      StepBesidePower(s, events[0], id);
      RunBesidePower(Apply(s, events[0]), events[1..], id);
    }
  }

  /** The moment at which the first unlocking happening is recorded: a power request passes its check then. */
  lemma {:induction false} UnlockedAt(s: State, events: seq<Event>) returns (k: nat)
    requires !Unlocked(s.history) && Unlocked(Run(s, events).history)
    ensures k <= |events| && PowerAllowed(Run(s, events[..k]).row)
    decreases |events|
  {
    assert events != [];
    var next := Apply(s, events[0]);
    if Unlocked(next.history) {
      k := 1;
      assert events[..1][1..] == [];
      assert Run(s, events[..1]) == Run(next, []);
      UnlockAllows(s, events[0]);
    } else {
      var rest := UnlockedAt(next, events[1..]);
      k := rest + 1;
      assert events[..k][0] == events[0] && events[..k][1..] == events[1..][..rest];
    }
  }

  lemma UnlockAllows(s: State, e: Event)
    requires !Unlocked(s.history) && Unlocked(Apply(s, e).history)
    ensures PowerAllowed(Apply(s, e).row)
  {
    var h :| Apply(s, e).history == s.history + [h] && Apply(s, e).row == Write(s.row, h);
    RecordKeepsUnlocked(s.history, h);
  }

  function FreshId(events: seq<Event>): (id: Id)
    ensures forall k, x: Id :: 0 <= k < |events| && Uses(events[k], x) ==> x < id
  {
    if events == [] then 0
    else
      var id := FreshId(events[1..]);
      assert forall k :: 0 < k < |events| ==> events[k] == events[1..][k - 1];
      match events[0]
      case StartSuspend(x) => if x < id then id else x + 1
      case StartUnsuspend(x) => if x < id then id else x + 1
      case StartPower(x) => if x < id then id else x + 1
      case Finish(x) => if x < id then id else x + 1
      case Drop(x) => if x < id then id else x + 1
      case _ => id
  }

  lemma PowerBeside(s: State, after: seq<Event>, id: Id)
    requires PowerAllowed(s.row) && id !in s.pending && forall k :: 0 <= k < |after| ==> !Uses(after[k], id)
    ensures Run(s, [StartPower(id)] + (after + [Finish(id)])).history == Run(s, after).history + [Forwarded]
  {
    FoldHead(Apply, s, StartPower(id), after + [Finish(id)]);
    RunBesidePower(s, after, id);
    FoldLast(Apply, WithPower(s, id), after, Finish(id));
  }

  /** A run with the same history in which a power request starts at its unlocked moment and is forwarded last. */
  lemma ForwardLast(events: seq<Event>) returns (more: seq<Event>)
    requires Unlocked(Run(NEW, events).history)
    ensures Run(NEW, more).history == Run(NEW, events).history + [Forwarded]
  {
    var id := FreshId(events);
    var k := UnlockedAt(NEW, events);
    var before, after := events[..k], events[k..];
    more := before + ([StartPower(id)] + (after + [Finish(id)]));
    assert before + after == events;
    FoldConcat(Apply, NEW, before, after);
    FoldConcat(Apply, NEW, before, [StartPower(id)] + (after + [Finish(id)]));
    RunBesidePower(NEW, before, id);
    PowerBeside(Run(NEW, before), after, id);
  }

  /** MAIN RESULT. A power action can be forwarded next after a history of writes exactly when that history has a
      create failure, a report or a lifted suspension: such a history lets a request through at some moment, and no
      later write calls it back. */
  lemma ForwardPossibleIff(events: seq<Event>)
    ensures var history := Run(NEW, events).history;
      (exists more :: Run(NEW, more).history == history + [Forwarded]) <==> Unlocked(history)
  {
    var history := Run(NEW, events).history;
    if more :| Run(NEW, more).history == history + [Forwarded] {
      PowerWaitsForInstall(more, |history|);
      assert (history + [Forwarded])[..|history|] == history;
    }
    if Unlocked(history) {
      var more := ForwardLast(events);
    }
  }

  const SUSPEND_FIRST: seq<Event> := [StartSuspend(1), Finish(1)]
  const THEN_UNSUSPEND: seq<Event> := [StartUnsuspend(2), Finish(2)]
  const THEN_POWER: seq<Event> := [StartPower(3), Finish(3)]

  /** Without the suspension clause the claim is false: suspending and unsuspending a server that is still
      installing clears its status, and power then goes through although nothing has been reported. */
  lemma UnsuspendUnlocksAnInstallingServer()
    ensures var s := Run(NEW, SUSPEND_FIRST + (THEN_UNSUSPEND + THEN_POWER));
      s.history == [Created, SuspendWritten, UnsuspendWritten, Forwarded] && s.row.installed == 0
  {
    var a := State(Row(Some(Suspended), 0), map[], [Created, SuspendWritten]);
    FoldTwo(Apply, NEW, StartSuspend(1), Finish(1));
    assert Apply(Apply(NEW, StartSuspend(1)), Finish(1)) == a;
    FoldConcat(Apply, NEW, SUSPEND_FIRST, THEN_UNSUSPEND + THEN_POWER);
    UnsuspendAndPower(a);
  }

  lemma UnsuspendAndPower(a: State)
    requires a.row == Row(Some(Suspended), 0) && a.pending == map[]
    ensures Run(a, THEN_UNSUSPEND + THEN_POWER).history == a.history + [UnsuspendWritten, Forwarded]
    ensures Run(a, THEN_UNSUSPEND + THEN_POWER).row.installed == 0
  {
    var b := State(Row(None, 0), map[], a.history + [UnsuspendWritten]);
    FoldTwo(Apply, a, StartUnsuspend(2), Finish(2));
    assert Apply(Apply(a, StartUnsuspend(2)), Finish(2)) == b;
    FoldConcat(Apply, a, THEN_UNSUSPEND, THEN_POWER);
    FoldTwo(Apply, b, StartPower(3), Finish(3));
  }
}

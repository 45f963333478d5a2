/**
 Who may move a flying mission's plan version: the two-phase suffix
 publication of uav_agent/agents/mission_agent.py with the bindings of
 uav_agent/skills/manager.py, and the three other writers.  A publication's
 final guard is arbitrary code: here, any further operations on the agent.
 */
module Publication {
  import opened Common

  datatype Plan = Plan(mission: nat, uav: nat, version: nat)

  datatype Status = IDLE | RUNNING | TERMINAL

  datatype Kind = LocalRepair(event: nat) | Coordinated

  /** A prepared suffix: the binding it was checked against and the plan it would install. */
  datatype Prepared = Prepared(kind: Kind, expected: nat, epoch: nat, boundary: nat, owned: Plan)

  datatype RepairEvent = RepairEvent(id: nat, version: nat, epoch: nat)

  /** The skill manager's side; the epoch counts task starts and is never reset. */
  datatype Manager = Manager(plan: Option<Plan>, epoch: nat, boundary: nat, running: bool, terminating: bool,
                             event: Option<RepairEvent>, stableHold: bool, interruptible: bool)
  {
    /** `_require_local_repair(..., require_hold=True)`. */
    predicate HoldsRepair(id: nat, version: nat) {
      && event.Some? && event.value.id == id && event.value.version == version && event.value.epoch == epoch
      && running && !terminating && plan.Some? && plan.value.version == version && stableHold
    }

    /** `verify_prepared_binding`. */
    predicate Binds(p: Prepared) {
      match p.kind
      case LocalRepair(id) => HoldsRepair(id, p.expected)
      case Coordinated =>
        && running && !terminating && plan.Some? && plan.value.version == p.expected
        && event.None? && interruptible && epoch == p.epoch && boundary == p.boundary
    }
  }

  /** What one applied suffix was prepared against. */
  datatype Base = Base(epoch: nat, version: nat)

  /** An operation on the agent, or something that happens to it. */
  datatype Op =
    | Start(version: nat, planned: bool)
    | PrepareLocal(event: nat, version: nat, preflight: bool)
    | PrepareCoordinated(version: nat, preflight: bool)
    | Apply(which: nat, guard: seq<Op>, guardRaises: bool)
    | CompleteVisual(plan: Plan, preflight: bool)
    | CoordinatorReplaces(accepts: bool)
    | AdoptRuntime(plan: Plan, preflight: bool)
    | TickRevision(accepted: Plan)
    | ManagerMoves(boundary: nat, hold: bool, interruptible: bool, fault: bool)
    | BeginShutdown
    | Finish
    | Reset

  /** Each version is one more than the one before. */
  predicate Climbs(versions: seq<nat>) {
    |versions| <= 1 || (versions[|versions| - 1] == versions[|versions| - 2] + 1 && Climbs(versions[..|versions| - 1]))
  }

  lemma {:induction false} ClimbsMeans(versions: seq<nat>, i: nat, j: nat)
    requires Climbs(versions) && i <= j < |versions|
    ensures versions[j] == versions[i] + (j - i)
  {
    var init := versions[..|versions| - 1];
    if j < |versions| - 1 {
      ClimbsMeans(init, i, j);
    } else if i < j {
      ClimbsMeans(init, i, j - 1);
    }
  }

  /** All bases are different, and those of this epoch are below the version reached. */
  ghost predicate AppliedOnce(applied: seq<Base>, epoch: nat, reached: nat) {
    && (forall i, j | 0 <= i < j < |applied| :: applied[i] != applied[j])
    && (forall i | 0 <= i < |applied| :: applied[i].epoch <= epoch)
    && (forall i | 0 <= i < |applied| :: applied[i].epoch == epoch ==> applied[i].version < reached)
  }

  lemma AppliedAppended(applied: seq<Base>, epoch: nat, version: nat)
    requires AppliedOnce(applied, epoch, version)
    ensures AppliedOnce(applied + [Base(epoch, version)], epoch, version + 1)
  {
  }

  // ------------------------------------------------ what the operations do

  /** Everything an operation may read or change, for the agent of one vehicle. */
  datatype State = State(uav: nat, status: Status, shuttingDown: bool, mission: Option<nat>, version: nat,
                         compiled: Option<Plan>, manager: Manager, prepared: seq<Prepared>, nextMission: nat,
                         nextEvent: nat)
  {
    /** A publication of p may proceed: the mission runs on the version p was prepared against, and the manager agrees. */
    predicate Admits(p: Prepared) {
      && status == RUNNING && !shuttingDown && p.owned.uav == uav && version == p.expected
      && manager.Binds(p)
    }

    function Installed(p: Prepared): State {
      this.(compiled := Some(p.owned), version := p.owned.version,
            manager := manager.(plan := Some(p.owned), event := None, stableHold := false))
    }

    function Adopted(plan: Plan): State { this.(compiled := Some(plan), version := plan.version) }

    /** The plan is for this running mission and vehicle, one version on. */
    predicate Follows(plan: Plan) {
      status == RUNNING && mission == Some(plan.mission) && plan.uav == uav && plan.version == version + 1
    }

    function Begun(newVersion: nat, planned: bool): State {
      if status != IDLE || newVersion < 1 then this
      else
        var started := this.(mission := Some(nextMission), version := newVersion, nextMission := nextMission + 1);
        var plan := Plan(nextMission, uav, newVersion);
        if !planned then started.(status := TERMINAL, compiled := None)
        else started.Launched(plan)
    }

    function Launched(plan: Plan): State {
      this.(status := RUNNING, shuttingDown := false, compiled := Some(plan),
            manager := Manager(Some(plan), manager.epoch + 1, 0, true, false, None, false, true))
    }

    predicate Prepares(kind: Kind, expected: nat, preflight: bool) {
      && status == RUNNING && !shuttingDown && version == expected && preflight
      && match kind
         case LocalRepair(id) => manager.HoldsRepair(id, expected)
         case Coordinated =>
           && manager.running && !manager.terminating && manager.plan.Some? && manager.plan.value.version == expected
           && manager.event.None? && manager.interruptible
    }

    function PreparedFor(kind: Kind, expected: nat, preflight: bool): State {
      if !Prepares(kind, expected, preflight) || mission.None? then this
      else this.(prepared := prepared + [Prepared(kind, expected, manager.epoch, manager.boundary,
                                                  Plan(mission.value, uav, expected + 1))])
    }

    /** The manager accepts a replacement that is one version ahead of the plan it runs. */
    predicate Completes(plan: Plan, preflight: bool) {
      Follows(plan) && preflight && manager.plan == Some(plan.(version := version)) && manager.running
    }

    function Completed(plan: Plan, preflight: bool): State {
      if !Completes(plan, preflight) then this
      else Adopted(plan).(manager := manager.(plan := Some(plan), event := None, stableHold := false))
    }

    function Replaced(accepts: bool): State {
      if !accepts || manager.plan.None? || !manager.running then this
      else
        var plan := manager.plan.value;
        this.(manager := manager.(plan := Some(plan.(version := plan.version + 1)), event := None, stableHold := false))
    }

    function Moved(boundary: nat, hold: bool, interruptible: bool, fault: bool): State {
      if !manager.running then this
      else
        var faulted := if fault && manager.event.None? && manager.plan.Some?
          then this.(manager := manager.(event := Some(RepairEvent(nextEvent, manager.plan.value.version, manager.epoch))),
                     nextEvent := nextEvent + 1)
          else this;
        faulted.(manager := faulted.manager.(boundary := boundary, stableHold := hold, interruptible := interruptible))
    }

    function Ended(ended: bool): State {
      if status != RUNNING then this
      else if ended then this.(status := TERMINAL, manager := manager.(running := false, event := None))
      else this.(shuttingDown := true, manager := manager.(terminating := true, event := None))
    }

    function Forgotten(): State {
      if status != TERMINAL then this
      else this.(status := IDLE, mission := None, compiled := None, shuttingDown := false,
                 manager := manager.(plan := None, event := None))
    }

    /** The guard runs only for an admitted suffix, which is installed if it is still admitted afterwards. */
    function Published(p: Prepared, guard: seq<Op>, guardRaises: bool): State
      decreases guard, 5
    {
      if !Admits(p) then this
      else
        var after := AfterAll(guard);
        if guardRaises || !after.Admits(p) then after else after.Installed(p)
    }

    function After(op: Op): State
      decreases op, 2
    {
      match op
      case Start(newVersion, planned) => Begun(newVersion, planned)
      case PrepareLocal(event, expected, preflight) => PreparedFor(LocalRepair(event), expected, preflight)
      case PrepareCoordinated(expected, preflight) => PreparedFor(Coordinated, expected, preflight)
      case Apply(which, guard, guardRaises) =>
        if which < |prepared| then Published(prepared[which], guard, guardRaises) else this
      case CompleteVisual(plan, preflight) => Completed(plan, preflight)
      case CoordinatorReplaces(accepts) => Replaced(accepts)
      case AdoptRuntime(plan, preflight) =>
        if Follows(plan) && manager.plan == Some(plan) && preflight then Adopted(plan) else this
      case TickRevision(accepted) => if Follows(accepted) then Adopted(accepted) else this
      case ManagerMoves(boundary, hold, interruptible, fault) => Moved(boundary, hold, interruptible, fault)
      case BeginShutdown => Ended(false)
      case Finish => Ended(true)
      case Reset => Forgotten()
    }

    function AfterAll(ops: seq<Op>): State
      decreases ops, 3
    {
      if ops == [] then this else After(ops[0]).AfterAll(ops[1..])
    }
  }

  /** Without anything in between, an admitted suffix is applied unless the guard raises, and no other is. */
  lemma PublishedDirectly(s: State, p: Prepared, guardRaises: bool)
    ensures s.Published(p, [], guardRaises) ==
      if !guardRaises && s.status == RUNNING && !s.shuttingDown && s.uav == p.owned.uav && s.version == p.expected
         && s.manager.Binds(p) then s.Installed(p) else s
  {
  }

  /** A second publication of one suffix is refused: the first has moved the version on. */
  lemma PublishedOnce(s: State, p: Prepared, guard: seq<Op>)
    requires p.owned.version == p.expected + 1 && s.Admits(p)
    ensures s.Installed(p).Published(p, guard, false) == s.Installed(p)
  {
  }

  /** A guard that publishes the same suffix first leaves nothing for the outer publication. */
  lemma NestedPublicationRefused(s: State, which: nat, guard: seq<Op>)
    requires which < |s.prepared|
    requires var p := s.prepared[which]; p.owned.version == p.expected + 1 && s.AfterAll(guard).Admits(p) && s.Admits(p)
    ensures var p := s.prepared[which]; var inner := Apply(which, guard, false);
      s.Published(p, [inner], false) == s.AfterAll(guard).Installed(p)
  {
    var p := s.prepared[which];
    var inner := Apply(which, guard, false);
    assert s.AfterAll([inner]) == s.After(inner).AfterAll([]);
  }

  class MissionAgent {
    const uav: nat
    var status: Status
    var shuttingDown: bool
    var mission: Option<nat>
    var version: nat
    var compiled: Option<Plan>
    var manager: Manager
    var prepared: seq<Prepared>           // every suffix ever handed out
    var nextMission: nat
    var nextEvent: nat
    ghost var epochMission: nat           // the mission of the manager's current epoch
    ghost var versions: seq<nat>          // the versions this mission has had
    ghost var applied: seq<Base>

    function Now(): State
      reads this
    {
      State(uav, status, shuttingDown, mission, version, compiled, manager, prepared, nextMission, nextEvent)
    }

    /** The plan in force carries the agent's own mission, vehicle and version. */
    predicate Consistent()
      reads this
    {
      status == RUNNING ==> mission.Some? && compiled == Some(Plan(mission.value, uav, version))
    }

    /** A prepared suffix of the current epoch is for this mission, and one version on. */
    ghost predicate PreparedSound(p: Prepared)
      reads this
    {
      && p.epoch <= manager.epoch && p.owned.uav == uav && p.owned.version == p.expected + 1
      && (p.epoch == manager.epoch ==> p.owned.mission == epochMission)
      && (p.kind.LocalRepair? ==> p.kind.event < nextEvent)
      && (p.kind.LocalRepair? && manager.event.Some? && manager.event.value.id == p.kind.event ==>
            p.epoch == manager.event.value.epoch)
    }

    ghost predicate Valid()
      reads this
    {
      && Consistent()
      && (forall p | p in prepared :: PreparedSound(p))
      && (manager.event.Some? ==> manager.event.value.id < nextEvent)
      && (status == RUNNING ==> mission == Some(epochMission))
      && versions != [] && Climbs(versions)
      && (status == RUNNING ==> versions[|versions| - 1] == version)
      && AppliedOnce(applied, manager.epoch, versions[|versions| - 1])
    }

    constructor (uav: nat)
      ensures Valid() && status == IDLE && this.uav == uav && applied == [] && prepared == []
    {
      this.uav, status, shuttingDown, mission, version, compiled := uav, IDLE, false, None, 0, None;
      manager := Manager(None, 0, 0, false, false, None, false, false);
      prepared, nextMission, nextEvent := [], 0, 0;
      epochMission, versions, applied := 0, [0], [];
    }

    /** What every writer does: the plan and the version move together, by one. */
    method MoveTo(plan: Plan)
      requires Valid() && status == RUNNING && plan == Plan(mission.value, uav, version + 1)
      modifies `compiled, `version, `versions
      ensures Now() == old(Now()).Adopted(plan)
      ensures version == old(version) + 1 && compiled == Some(plan)
      ensures versions == old(versions) + [version]
      ensures Valid()
    {
      compiled, version := Some(plan), plan.version;
      versions := versions + [version];
      assert versions[..|versions| - 1] == old(versions);
    }

    /** `start`. */
    method Begin(newVersion: nat, planned: bool) returns (ok: bool)
      requires Valid()
      modifies this
      ensures Valid() && applied == old(applied) && prepared == old(prepared)
      ensures Now() == old(Now()).Begun(newVersion, planned)
      ensures ok <==> old(status) == IDLE && newVersion >= 1 && planned
      ensures ok ==> old(status) == IDLE && status == RUNNING && version == newVersion > 0 && versions == [newVersion]
      ensures ok ==> manager.epoch == old(manager.epoch) + 1 && manager.plan == compiled
    {
      if status != IDLE || newVersion < 1 {
        return false;
      }
      mission, version, nextMission := Some(nextMission), newVersion, nextMission + 1;
      if !planned {
        status, compiled := TERMINAL, None;
        return false;
      }
      Launch(Plan(mission.value, uav, version));
      return true;
    }

    /** The compiled plan is handed to the manager as a new task. */
    method Launch(plan: Plan)
      requires Valid() && status == IDLE && mission.Some? && plan == Plan(mission.value, uav, version)
      modifies `manager, `compiled, `status, `shuttingDown, `epochMission, `versions
      ensures Valid() && versions == [version] && Now() == old(Now()).Launched(plan)
    {
      manager := Manager(Some(plan), manager.epoch + 1, 0, true, false, None, false, true);
      compiled, status, shuttingDown := Some(plan), RUNNING, false;
      epochMission, versions := plan.mission, [version];
    }

    /** The two prepare methods: every check, no change to the plan in force. */
    method Prepare(kind: Kind, expected: nat, preflight: bool) returns (ok: bool)
      requires Valid()
      modifies `prepared
      ensures Valid()
      ensures ok <==>
        (&& status == RUNNING && !shuttingDown && version == expected && preflight
         && match kind
            case LocalRepair(id) => manager.HoldsRepair(id, expected)
            case Coordinated => manager.Binds(Prepared(kind, expected, manager.epoch, manager.boundary, compiled.value)))
      ensures ok ==>
        prepared == old(prepared)
                    + [Prepared(kind, expected, manager.epoch, manager.boundary, Plan(mission.value, uav, expected + 1))]
      ensures !ok ==> prepared == old(prepared)
      ensures Now() == old(Now()).PreparedFor(kind, expected, preflight)
    {
      if status != RUNNING || shuttingDown || version != expected || !preflight {
        return false;
      }
      var p := Prepared(kind, expected, manager.epoch, manager.boundary, Plan(mission.value, uav, expected + 1));
      if !manager.Binds(p) {
        return false;
      }
      prepared := prepared + [p];
      return true;
    }

    predicate AgentBinds(p: Prepared)
      reads this
    {
      p.owned.uav == uav && status == RUNNING && !shuttingDown && version == p.expected
    }

    /**
     `apply_prepared_suffix_state`.  Whatever the final guard does, including
     publishing another suffix, the suffix is applied only on the version it was
     prepared against, and then the version is one more.
     */
    method ApplyPrepared(p: Prepared, guard: seq<Op>, guardRaises: bool) returns (ok: bool)
      requires Valid() && p in prepared
      modifies this
      ensures Valid()
      ensures old(prepared) <= prepared && old(applied) <= applied
      ensures Now() == old(Now()).Published(p, guard, guardRaises)
      ensures ok <==>
        old(Now().Admits(p)) && !guardRaises && old(Now()).AfterAll(guard).Admits(p)
      ensures guard == [] ==>
        (ok <==>
           (&& !guardRaises && old(status) == RUNNING && !old(shuttingDown) && p.owned.uav == uav
            && old(version) == p.expected && old(manager).Binds(p)))
      ensures ok ==> !guardRaises && version == p.expected + 1 && compiled == Some(p.owned) && manager.plan == Some(p.owned)
      ensures ok ==> applied != [] && applied[|applied| - 1] == Base(manager.epoch, p.expected)
      decreases guard, 5
    {
      if !AgentBinds(p) || !manager.Binds(p) {
        return false;
      }
      ExecuteAll(guard);
      if guardRaises || !AgentBinds(p) || !manager.Binds(p) {
        return false;
      }
      assert PreparedSound(p);
      assert p.owned == Plan(mission.value, uav, version + 1);
      AppliedAppended(applied, manager.epoch, version);
      manager := manager.(plan := Some(p.owned), event := None, stableHold := false);
      MoveTo(p.owned);
      applied := applied + [Base(manager.epoch, p.expected)];
      return true;
    }

    /** `complete_visual_plan_revision` with a replacement; the manager refuses unless it is one version behind. */
    method CompleteVisualRevision(plan: Plan, preflight: bool) returns (ok: bool)
      requires Valid()
      modifies this
      ensures Valid() && prepared == old(prepared) && applied == old(applied)
      ensures Now() == old(Now()).Completed(plan, preflight)
      ensures ok <==>
        && old(status) == RUNNING && old(mission) == Some(plan.mission) && plan.uav == uav
        && plan.version == old(version) + 1 && preflight
        && old(manager).plan == Some(plan.(version := old(version))) && old(manager).running
      ensures ok ==> old(status) == RUNNING && plan.version == old(version) + 1 == version && compiled == Some(plan)
      ensures !ok ==> version == old(version) && compiled == old(compiled) && status == old(status)
    {
      if status != RUNNING || Some(plan.mission) != mission || plan.uav != uav || plan.version != version + 1 || !preflight
         || manager.plan.None? || manager.plan.value != plan.(version := version) || !manager.running {
        return false;
      }
      manager := manager.(plan := Some(plan), event := None, stableHold := false);
      MoveTo(plan);
      return true;
    }

    /** `adopt_runtime_task_plan`: only a plan the manager has already installed. */
    method AdoptRuntimePlan(plan: Plan, preflight: bool) returns (ok: bool)
      requires Valid()
      modifies this
      ensures Valid() && prepared == old(prepared) && applied == old(applied) && manager == old(manager)
      ensures ok <==> old(status) == RUNNING && old(mission) == Some(plan.mission) && plan.uav == uav
                      && plan.version == old(version) + 1 && old(manager).plan == Some(plan) && preflight
      ensures ok ==> version == old(version) + 1 && compiled == Some(plan)
      ensures !ok ==> version == old(version) && compiled == old(compiled)
      ensures Now() == if ok then old(Now()).Adopted(plan) else old(Now())
    {
      if status != RUNNING || Some(plan.mission) != mission || plan.uav != uav || plan.version != version + 1
         || manager.plan != Some(plan) || !preflight {
        return false;
      }
      MoveTo(plan);
      return true;
    }

    /** The adoption at the end of `_tick_plan_revision`; the agent's own version is left alone. */
    method AdoptRevision(revised: Plan) returns (ok: bool)
      requires Valid()
      modifies `compiled, `version, `versions
      ensures Valid()
      ensures ok <==> old(status) == RUNNING && old(mission) == Some(revised.mission) && revised.uav == uav
                      && revised.version == old(version) + 1
      ensures ok ==> version == old(version) + 1 && compiled == Some(revised)
      ensures !ok ==> version == old(version) && compiled == old(compiled)
      ensures Now() == if ok then old(Now()).Adopted(revised) else old(Now())
    {
      if status != RUNNING || Some(revised.mission) != mission || revised.uav != uav || revised.version == version
         || revised.version != version + 1 {
        return false;
      }
      MoveTo(revised);
      return true;
    }

    /** A trusted coordinator replaces the manager's plan; the agent has yet to adopt it. */
    method ReplaceInManager(accepts: bool)
      requires Valid()
      modifies `manager
      ensures Valid() && manager.epoch == old(manager.epoch)
      ensures Now() == old(Now()).Replaced(accepts)
    {
      if accepts && manager.plan.Some? && manager.running {
        var plan := manager.plan.value;
        manager := manager.(plan := Some(plan.(version := plan.version + 1)), event := None, stableHold := false);
      }
    }

    /** The manager goes on by itself: another step, a hold, or a fault that opens a repair event. */
    method MoveManager(boundary: nat, hold: bool, interruptible: bool, fault: bool)
      requires Valid()
      modifies `manager, `nextEvent
      ensures Valid() && manager.epoch == old(manager.epoch) && manager.plan == old(manager.plan)
      ensures Now() == old(Now()).Moved(boundary, hold, interruptible, fault)
    {
      if !manager.running {
        return;
      }
      if fault && manager.event.None? && manager.plan.Some? {
        manager := manager.(event := Some(RepairEvent(nextEvent, manager.plan.value.version, manager.epoch)));
        nextEvent := nextEvent + 1;
      }
      manager := manager.(boundary := boundary, stableHold := hold, interruptible := interruptible);
    }

    method Execute(op: Op)
      requires Valid()
      modifies this
      ensures Valid() && old(prepared) <= prepared && old(applied) <= applied
      ensures Now() == old(Now()).After(op)
      decreases op, 2
    {
      if op.Apply? {
        if op.which < |prepared| {
          var ok := ApplyPrepared(prepared[op.which], op.guard, op.guardRaises);
        }
      } else {
        Perform(op);
      }
    }

    /** Any operation that runs no guard. */
    method Perform(op: Op)
      requires Valid() && !op.Apply?
      modifies this
      ensures Valid() && old(prepared) <= prepared && applied == old(applied)
      ensures Now() == old(Now()).After(op)
    {
      match op
      case Start(newVersion, planned) =>
        var ok := Begin(newVersion, planned);
      case PrepareLocal(event, expected, preflight) =>
        var ok := Prepare(LocalRepair(event), expected, preflight);
      case PrepareCoordinated(expected, preflight) =>
        var ok := Prepare(Coordinated, expected, preflight);
      case CompleteVisual(plan, preflight) =>
        var ok := CompleteVisualRevision(plan, preflight);
      case CoordinatorReplaces(accepts) =>
        ReplaceInManager(accepts);
      case AdoptRuntime(plan, preflight) =>
        var ok := AdoptRuntimePlan(plan, preflight);
      case TickRevision(accepted) =>
        var ok := AdoptRevision(accepted);
      case ManagerMoves(boundary, hold, interruptible, fault) =>
        MoveManager(boundary, hold, interruptible, fault);
      case BeginShutdown =>
        EndMission(false);
      case Finish =>
        EndMission(true);
      case Reset =>
        ForgetMission();
    }

    /** A running mission starts to shut down, or has ended. */
    method EndMission(ended: bool)
      requires Valid()
      modifies `status, `shuttingDown, `manager
      ensures Valid() && Now() == old(Now()).Ended(ended)
    {
      if status == RUNNING {
        if ended {
          status, manager := TERMINAL, manager.(running := false, event := None);
        } else {
          shuttingDown, manager := true, manager.(terminating := true, event := None);
        }
      }
    }

    /** A mission that has ended is forgotten. */
    method ForgetMission()
      requires Valid()
      modifies `status, `mission, `compiled, `shuttingDown, `manager
      ensures Valid() && Now() == old(Now()).Forgotten()
    {
      if status == TERMINAL {
        status, mission, compiled, shuttingDown := IDLE, None, None, false;
        manager := manager.(plan := None, event := None);
      }
    }

    method ExecuteAll(ops: seq<Op>)
      requires Valid()
      modifies this
      ensures Valid() && old(prepared) <= prepared && old(applied) <= applied
      ensures Now() == old(Now()).AfterAll(ops)
      decreases ops, 3
    {
      if ops != [] {
        Execute(ops[0]);
        ExecuteAll(ops[1..]);
      }
    }
  }

  /**
   Over every interleaving: the plan in force is always the agent's, the version
   only climbs by one within a mission, and no two applied suffixes were prepared
   against the same version of the same task.
   */
  method EveryInterleaving(agent: MissionAgent, ops: seq<Op>)
    requires agent.Valid()
    modifies agent
    ensures agent.Valid() && agent.Consistent() && agent.Now() == old(agent.Now()).AfterAll(ops)
    ensures forall i, j | 0 <= i <= j < |agent.versions| :: agent.versions[j] == agent.versions[i] + (j - i)
    ensures forall i, j | 0 <= i < j < |agent.applied| :: agent.applied[i] != agent.applied[j]
  {
    agent.ExecuteAll(ops);
    forall i, j | 0 <= i <= j < |agent.versions| ensures agent.versions[j] == agent.versions[i] + (j - i) {
      ClimbsMeans(agent.versions, i, j);
    }
  }
}

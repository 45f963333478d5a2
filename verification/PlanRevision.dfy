/**
 The plan-revision coordinator of uav_agent/agents/plan_revision_coordinator.py:
 one asynchronous revision at a time under supervisory hover, a deadline, a
 revision budget with a cooldown, and a trusted fallback.  The skill manager's
 visible state, the clock, the worker and the validator are inputs.
 */
module PlanRevision {
  import opened Common

  datatype Route = Route(mission: nat, uav: nat, version: nat)

  function Next(r: Route): Route { r.(version := r.version + 1) }

  /** What the coordinator sees of the skill manager. */
  datatype Manager = Manager(route: Option<Route>, step: Option<nat>, running: bool, terminating: bool,
                             paused: bool, landing: bool)

  datatype Belief = Belief(route: Route, step: Option<nat>, hasSkill: bool)

  datatype Plan = Plan(route: Route, steps: seq<nat>, landSteps: set<nat>, searchSteps: set<nat>)

  /** An INSPECT trigger names a candidate; it may be malformed or lack a candidate bank. */
  datatype Trigger = Ordinary | Inspect | InspectUnusable

  datatype Event = Event(isRevisionRequest: bool, route: Route, trigger: Trigger)

  datatype State = IDLE | IN_FLIGHT | ACCEPTED | REJECTED | TIMED_OUT

  datatype FallbackPolicy = ResumeInterrupted | CancelAndLand

  datatype FallbackResult = NoFallback | Resumed | Cancelled | FallbackFailed

  datatype Pending = Pending(request: nat, route: Route, step: nat, trigger: Trigger, submitted: real, deadline: real)

  datatype Record = Record(request: nat, timestamp: real, outcome: State, newVersion: Option<nat>, fallback: FallbackResult)

  datatype Acceptance = Acceptance(submitted: real, installed: real, deadline: real)

  /** Whether the manager's operations raise, should they be called. */
  datatype Faults = Faults(hover: bool, submit: bool, replace: bool, resume: bool, cancel: bool)

  datatype Verdict = ModelOrParseRejected | Invalid | Validated

  datatype Polled = WorkerRaised | Nothing | Arrived(verdict: Verdict)

  /** One tick's surroundings; `during` is the manager once validation has run. */
  datatype Surroundings = Surroundings(now: real, plan: Route, belief: Belief, polled: Polled, during: Manager,
                                       later: real, candidateOk: bool, faults: Faults)

  /** `_submission_route_error` finds nothing. */
  predicate Submittable(uav: nat, e: Event, p: Plan, b: Belief, m: Manager) {
    && e.isRevisionRequest
    && e.route.uav == uav && b.route.uav == uav
    && e.route == p.route && b.route == p.route
    && b.step.Some? && b.hasSkill && b.step.value in p.steps
    && m.route == Some(p.route) && m.step == b.step && m.running && !m.terminating
  }

  /** `_pending_route_error` finds nothing: route, step and supervisory hover are as submitted. */
  predicate StillCurrent(p: Pending, plan: Route, b: Belief, m: Manager) {
    && plan == p.route
    && b.route == p.route && b.step == Some(p.step)
    && m.route == Some(p.route) && m.step == Some(p.step)
    && !m.terminating && m.paused
  }

  // ---------------------------------------------------- how a request ends

  /** The manager a fallback leaves, and what the record says of it. */
  datatype Released = Released(manager: Manager, result: FallbackResult)

  /** The hover ends, or landing takes over, or the failure is reported; nothing happens where none is due. */
  function Release(policy: FallbackPolicy, due: bool, m: Manager, f: Faults): Released {
    if !due then Released(m, NoFallback)
    else if policy == CancelAndLand then
      if !m.running then Released(m, NoFallback)
      else if f.cancel then Released(m, FallbackFailed)
      else Released(m.(terminating := true), Cancelled)
    else if !m.paused then Released(m, NoFallback)
    else if !f.resume then Released(m.(paused := false), Resumed)
    else if !f.cancel then Released(m.(terminating := true), Cancelled)
    else Released(m, FallbackFailed)
  }

  /**
   The result says what was done to the manager.  Under CANCEL_AND_LAND a running
   task is landed or the failure recorded, and under either policy no hover is
   left without an owner: it ended, the task is landing or not running, or the
   failure is recorded.
   */
  lemma ReleaseMeans(policy: FallbackPolicy, m: Manager, f: Faults)
    ensures var left := Release(policy, true, m, f);
      && left.manager == (match left.result
                          case Resumed => m.(paused := false)
                          case Cancelled => m.(terminating := true)
                          case NoFallback => m
                          case FallbackFailed => m)
      && (policy == CancelAndLand && m.running ==>
            (left.result == Cancelled && left.manager.terminating) || (left.result == FallbackFailed && f.cancel))
      && (left.manager.paused ==> left.manager.terminating || left.result == FallbackFailed || !left.manager.running)
      && (left.result == Resumed <==> policy == ResumeInterrupted && m.paused && !f.resume)
  {
  }

  datatype Ending = GoesOn | Refused(outcome: State, at: real, due: bool, manager: Manager) | Installs(at: real)

  /** What a tick does to a pending request, in the order of its checks. */
  function EndingOf(p: Pending, m: Manager, s: Surroundings): Ending {
    if s.now < p.submitted then Refused(REJECTED, s.now, true, m)
    else if !StillCurrent(p, s.plan, s.belief, m) then Refused(REJECTED, s.now, m.paused, m)
    else if s.now >= p.deadline then Refused(TIMED_OUT, s.now, true, m)
    else if !s.polled.Arrived? then GoesOn
    else if s.polled.verdict != Validated then Refused(REJECTED, s.now, true, s.during)
    else if s.later < p.submitted then Refused(REJECTED, s.later, true, s.during)
    else if s.later >= p.deadline then Refused(TIMED_OUT, s.later, s.during.paused, s.during)
    else if StillCurrent(p, s.plan, s.belief, s.during) && !p.trigger.InspectUnusable?
            && (p.trigger.Inspect? ==> s.candidateOk) && !s.faults.replace
      then Installs(s.later)
    else Refused(REJECTED, s.later, true, s.during)
  }

  /**
   A revision is installed exactly when everything is still as submitted, before
   and after validation, inside the deadline; a request goes on exactly while it
   is undecided, and times out exactly when the deadline overtakes it.
   */
  lemma EndingMeans(p: Pending, m: Manager, s: Surroundings)
    ensures EndingOf(p, m, s).Installs? <==>
      && p.submitted <= s.now < p.deadline && StillCurrent(p, s.plan, s.belief, m)
      && s.polled == Arrived(Validated)
      && p.submitted <= s.later < p.deadline && StillCurrent(p, s.plan, s.belief, s.during)
      && !p.trigger.InspectUnusable? && (p.trigger.Inspect? ==> s.candidateOk)
      && !s.faults.replace
    ensures EndingOf(p, m, s).GoesOn? <==>
      p.submitted <= s.now < p.deadline && StillCurrent(p, s.plan, s.belief, m) && !s.polled.Arrived?
    ensures EndingOf(p, m, s).Refused? && EndingOf(p, m, s).outcome == TIMED_OUT <==>
      && p.submitted <= s.now && StillCurrent(p, s.plan, s.belief, m)
      && (s.now >= p.deadline
          || (s.polled == Arrived(Validated) && s.later >= p.deadline && s.later >= p.submitted))
  {
  }

  /** A request that has timed out is never left hovering, whichever of the two deadline checks ends it. */
  lemma TimedOutIsReleased(p: Pending, m: Manager, s: Surroundings, policy: FallbackPolicy)
    ensures var ending := EndingOf(p, m, s); ending.Refused? && ending.outcome == TIMED_OUT ==>
      var left := Release(policy, ending.due, ending.manager, s.faults);
      left.manager.paused ==> left.manager.terminating || left.result == FallbackFailed || !left.manager.running
  {
    var ending := EndingOf(p, m, s);
    if ending.Refused? {
      ReleaseMeans(policy, ending.manager, s.faults);
    }
  }

  /** The records are those of consecutive requests, starting with this one. */
  predicate Numbered(history: seq<Record>, first: nat) {
    forall i | 0 <= i < |history| :: history[i].request == first + i
  }

  /** How many records a request has. */
  function RecordsOf(history: seq<Record>, request: nat): nat {
    if history == [] then 0
    else
      var n := |history| - 1;
      RecordsOf(history[..n], request) + if history[n].request == request then 1 else 0
  }

  lemma {:induction false} OneRecordEach(history: seq<Record>, first: nat, request: nat)
    requires Numbered(history, first)
    ensures RecordsOf(history, request) == if first <= request < first + |history| then 1 else 0
  {
    if history != [] {
      OneRecordEach(history[..|history| - 1], first, request);
    }
  }

  /** Installed while live, and each submitted at least the cooldown after the one before was installed. */
  predicate Spaced(accepted: seq<Acceptance>, cooldown: real) {
    if accepted == [] then true
    else
      var n := |accepted| - 1;
      && accepted[n].submitted <= accepted[n].installed < accepted[n].deadline
      && (n > 0 ==> accepted[n].submitted >= accepted[n - 1].installed + cooldown)
      && Spaced(accepted[..n], cooldown)
  }

  lemma {:induction false} SpacedMeans(accepted: seq<Acceptance>, cooldown: real, i: nat, j: nat)
    requires Spaced(accepted, cooldown) && cooldown >= 0.0 && i < j < |accepted|
    ensures accepted[j].installed >= accepted[i].installed + cooldown
    ensures accepted[j].installed < accepted[j].deadline
  {
    var init := accepted[..|accepted| - 1];
    if j < |accepted| - 1 {
      SpacedMeans(init, cooldown, i, j);
    } else if i < j - 1 {
      SpacedMeans(init, cooldown, i, j - 1);
    }
  }

  lemma SpacedAppended(accepted: seq<Acceptance>, a: Acceptance, cooldown: real)
    requires Spaced(accepted, cooldown) && a.submitted <= a.installed < a.deadline
    requires accepted != [] ==> a.submitted >= accepted[|accepted| - 1].installed + cooldown
    ensures Spaced(accepted + [a], cooldown)
  {
    assert (accepted + [a])[..|accepted|] == accepted;
  }

  datatype Step =
    | Submitted(event: Event, plan: Plan, belief: Belief, candidateOk: bool, now: real, buildFails: bool, faults: Faults)
    | Ticked(around: Surroundings, newStep: nat)
    | ManagerMoved(manager: Manager)
    | MissionReset(faults: Faults)

  datatype Limits = Limits(uav: nat, timeout: real, cooldown: real, maxRevisions: nat, policy: FallbackPolicy)

  /** Everything a step may change; the record list is the tail of the history. */
  datatype Snapshot = Snapshot(manager: Manager, state: State, pending: Option<Pending>, revisionCount: nat,
                               lastRevision: Option<real>, nextRequest: nat, first: nat, history: seq<Record>,
                               accepted: seq<Acceptance>)
  {
    /** Requests and records are numbered together. */
    predicate Logged() {
      && Numbered(history, first)
      && first + |history| + (if pending.Some? then 1 else 0) == nextRequest
      && (pending.Some? ==> pending.value.request == first + |history|)
    }

    predicate Budgeted(l: Limits) {
      && |accepted| == revisionCount <= l.maxRevisions
      && (lastRevision.None? <==> accepted == [])
      && (lastRevision.Some? ==> accepted[|accepted| - 1].installed == lastRevision.value)
      && Spaced(accepted, l.cooldown)
    }

    /** One request is pending exactly while the state is IN_FLIGHT, and it respects budget and cooldown. */
    predicate Valid(l: Limits) {
      && Logged() && Budgeted(l) && (pending.Some? <==> state == IN_FLIGHT)
      && (pending.Some? ==>
            && pending.value.deadline == pending.value.submitted + l.timeout
            && revisionCount < l.maxRevisions
            && (lastRevision.Some? ==> pending.value.submitted >= lastRevision.value + l.cooldown))
    }

    /** Everything `submit_event` checks before it builds a request. */
    predicate Admissible(l: Limits, e: Event, plan: Plan, b: Belief, candidateOk: bool, now: real) {
      && Submittable(l.uav, e, plan, b, manager)
      && b.step.value !in plan.landSteps && !manager.landing
      && (e.trigger.Inspect? ==> b.step.value in plan.searchSteps && candidateOk)
      && !e.trigger.InspectUnusable?
      && revisionCount < l.maxRevisions
      && (lastRevision.Some? ==> now - lastRevision.value >= l.cooldown)
    }

    /** A refused submission releases a hover that is on, except when landing; a spent budget always falls back. */
    predicate FallbackDue(l: Limits, e: Event, plan: Plan, b: Belief, candidateOk: bool, now: real) {
      if !Submittable(l.uav, e, plan, b, manager) then manager.paused
      else if b.step.value in plan.landSteps || manager.landing then false
      else if e.trigger.InspectUnusable? || (e.trigger.Inspect? && !(b.step.value in plan.searchSteps && candidateOk))
        then manager.paused
      else manager.paused || revisionCount >= l.maxRevisions
           || (lastRevision.Some? && now - lastRevision.value < l.cooldown)
    }

    /** The one record of a request that is not accepted. */
    function Rejected(outcome: State, at: real, request: nat, left: Released): Snapshot {
      this.(manager := left.manager, state := outcome, pending := None,
            history := history + [Record(request, at, outcome, None, left.result)])
    }

    function Launched(l: Limits, trigger: Trigger, route: Route, step: nat, now: real, f: Faults): Snapshot {
      var next := this.(nextRequest := nextRequest + 1);
      var hovering := manager.(paused := manager.paused || !f.hover);
      if hovering.paused && !f.submit then
        next.(manager := hovering, state := IN_FLIGHT,
              pending := Some(Pending(nextRequest, route, step, trigger, now, now + l.timeout)))
      else next.Rejected(REJECTED, now, nextRequest, Release(l.policy, hovering.paused, hovering, f))
    }

    function After(l: Limits, step: Step): Snapshot {
      match step
      case Submitted(e, plan, b, candidateOk, now, buildFails, f) =>
        if pending.Some? then this
        else if Admissible(l, e, plan, b, candidateOk, now) && !buildFails then
          Launched(l, e.trigger, plan.route, b.step.value, now, f)
        else
          var due := FallbackDue(l, e, plan, b, candidateOk, now);
          this.(nextRequest := nextRequest + 1).Rejected(REJECTED, now, nextRequest, Release(l.policy, due, manager, f))
      case Ticked(s, newStep) =>
        if pending.None? then this
        else
          var p := pending.value;
          (match EndingOf(p, manager, s)
           case GoesOn => this
           case Refused(outcome, at, due, base) => Rejected(outcome, at, p.request, Release(l.policy, due, base, s.faults))
           case Installs(at) => Installed(p, at, s.during, newStep))
      case ManagerMoved(m) => this.(manager := m)
      case MissionReset(f) =>
        Snapshot(Release(l.policy, pending.Some? && manager.paused, manager, f).manager, IDLE, None, 0, None, nextRequest,
                 nextRequest, [], [])
    }

    function Installed(p: Pending, at: real, during: Manager, newStep: nat): Snapshot {
      this.(manager := during.(route := Some(Next(p.route)), step := Some(newStep), paused := false),
            state := ACCEPTED, pending := None, revisionCount := revisionCount + 1, lastRevision := Some(at),
            accepted := accepted + [Acceptance(p.submitted, at, p.deadline)],
            history := history + [Record(p.request, at, ACCEPTED, Some(p.route.version + 1), NoFallback)])
    }

    /** After the first n steps. */
    function AfterAll(l: Limits, steps: seq<Step>, n: nat): Snapshot
      requires n <= |steps|
    {
      if n == 0 then this else AfterAll(l, steps, n - 1).After(l, steps[n - 1])
    }
  }

  lemma RejectedValid(s: Snapshot, l: Limits, outcome: State, at: real, left: Released)
    requires s.Logged() && s.Budgeted(l) && outcome != IN_FLIGHT
    ensures s.pending.Some? ==> s.Rejected(outcome, at, s.pending.value.request, left).Valid(l)
    ensures s.pending.None? ==> s.(nextRequest := s.nextRequest + 1).Rejected(outcome, at, s.nextRequest, left).Valid(l)
  {
  }

  lemma InstalledValid(s: Snapshot, l: Limits, at: real, during: Manager, newStep: nat)
    requires s.Valid(l) && s.pending.Some? && s.pending.value.submitted <= at < s.pending.value.deadline
    ensures s.Installed(s.pending.value, at, during, newStep).Valid(l)
  {
    var p := s.pending.value;
    SpacedAppended(s.accepted, Acceptance(p.submitted, at, p.deadline), l.cooldown);
  }

  /** Every step keeps the numbering, the budget and the cooldown. */
  lemma AfterValid(s: Snapshot, l: Limits, step: Step)
    requires s.Valid(l)
    ensures s.After(l, step).Valid(l)
  {
    match step
    case Submitted(e, plan, b, candidateOk, now, buildFails, f) =>
      if s.pending.None? {
        RejectedValid(s, l, REJECTED, now, Release(l.policy, s.FallbackDue(l, e, plan, b, candidateOk, now), s.manager, f));
        var hovering := s.manager.(paused := s.manager.paused || !f.hover);
        RejectedValid(s, l, REJECTED, now, Release(l.policy, hovering.paused, hovering, f));
      }
    case Ticked(around, newStep) =>
      if s.pending.Some? {
        match EndingOf(s.pending.value, s.manager, around)
        case GoesOn =>
        case Refused(outcome, at, due, base) =>
          RejectedValid(s, l, outcome, at, Release(l.policy, due, base, around.faults));
        case Installs(at) =>
          InstalledValid(s, l, at, around.during, newStep);
      }
    case ManagerMoved(m) =>
    case MissionReset(f) =>
  }

  class PlanRevisionCoordinator {
    const uav: nat
    const timeout: real
    const cooldown: real
    const maxRevisions: nat
    const maxRecords: nat
    const policy: FallbackPolicy
    var manager: Manager
    var state: State
    var pending: Option<Pending>
    var revisionCount: nat
    var lastRevision: Option<real>
    var records: seq<Record>
    var nextRequest: nat
    ghost var first: nat                   // the first request since the last reset
    ghost var history: seq<Record>         // every record since the last reset
    ghost var accepted: seq<Acceptance>    // every installation since the last reset

    function Limited(): Limits { Limits(uav, timeout, cooldown, maxRevisions, policy) }

    ghost function Now(): Snapshot
      reads this
    {
      Snapshot(manager, state, pending, revisionCount, lastRevision, nextRequest, first, history, accepted)
    }

    ghost predicate Configured() { timeout > 0.0 && cooldown >= 0.0 && maxRecords > 0 }

    /** The record list is the tail of the history. */
    ghost predicate Kept()
      reads this
    {
      Configured() && records == Latest(history, maxRecords)
    }

    ghost predicate Valid()
      reads this
    {
      Kept() && Now().Valid(Limited())
    }

    constructor (uav: nat, timeout: real, cooldown: real, maxRevisions: nat, maxRecords: nat, policy: FallbackPolicy,
                 manager: Manager)
      requires timeout > 0.0 && cooldown >= 0.0 && maxRecords > 0
      ensures Valid() && state == IDLE && first == 0 && history == [] && accepted == [] && this.manager == manager
      ensures this.cooldown == cooldown && this.maxRevisions == maxRevisions
    {
      this.uav, this.timeout, this.cooldown := uav, timeout, cooldown;
      this.maxRevisions, this.maxRecords, this.policy, this.manager := maxRevisions, maxRecords, policy, manager;
      state, pending, revisionCount, lastRevision, records, nextRequest := IDLE, None, 0, None, [], 0;
      first, history, accepted := 0, [], [];
    }

    /** `_apply_fallback`: hover ends, or landing takes over, or the failure is reported. */
    method ApplyFallback(f: Faults) returns (r: FallbackResult)
      modifies `manager
      ensures manager.route == old(manager.route) && manager.step == old(manager.step)
      ensures manager.running == old(manager.running)
      ensures manager.paused ==> manager.terminating || r == FallbackFailed || (policy == CancelAndLand && !manager.running)
      ensures Released(manager, r) == Release(policy, true, old(manager), f)
      ensures r == Cancelled ==> manager == old(manager).(terminating := true)
      ensures r == Resumed ==> manager == old(manager).(paused := false)
      ensures r == NoFallback || r == FallbackFailed ==> manager == old(manager)
      ensures r == FallbackFailed ==> f.cancel && (policy == CancelAndLand || f.resume)
      ensures r == Resumed <==> policy == ResumeInterrupted && old(manager.paused) && !f.resume
      ensures policy == CancelAndLand && old(manager.running) ==> r == if f.cancel then FallbackFailed else Cancelled
    {
      if policy == ResumeInterrupted {
        if !manager.paused {
          return NoFallback;
        }
        if !f.resume {
          manager := manager.(paused := false);
          return Resumed;
        }
        if !f.cancel {
          manager := manager.(terminating := true);
          return Cancelled;
        }
        return FallbackFailed;
      }
      if manager.running {
        if f.cancel {
          return FallbackFailed;
        }
        manager := manager.(terminating := true);
        return Cancelled;
      }
      return NoFallback;
    }

    method FallBackIf(due: bool, f: Faults) returns (r: FallbackResult)
      modifies `manager
      ensures Released(manager, r) == Release(policy, due, old(manager), f)
    {
      r := NoFallback;
      if due {
        r := ApplyFallback(f);
      }
    }

    method Append(r: Record)
      requires Kept()
      modifies `records, `history
      ensures Kept() && Now() == old(Now()).(history := old(history) + [r])
    {
      LatestAppended(history, r, maxRecords);
      records := Latest(records + [r], maxRecords);
      history := history + [r];
    }

    /** `_reject_submission`. */
    method RejectSubmission(now: real, fallback: bool, f: Faults)
      requires Kept() && pending.None?
      modifies `manager, `state, `records, `history, `nextRequest
      ensures Kept()
      ensures Now() == old(Now()).(nextRequest := old(nextRequest) + 1)
                         .Rejected(REJECTED, now, old(nextRequest), Release(policy, fallback, old(manager), f))
    {
      state := REJECTED;
      var result := FallBackIf(fallback, f);
      Append(Record(nextRequest, now, REJECTED, None, result));
      nextRequest := nextRequest + 1;
    }

    /** `_finish_rejected`: the one terminal record of a request that is not accepted. */
    method FinishRejected(outcome: State, now: real, fallback: bool, f: Faults)
      requires Kept() && pending.Some?
      modifies `manager, `state, `pending, `records, `history
      ensures Kept()
      ensures Now() == old(Now()).Rejected(outcome, now, old(pending).value.request, Release(policy, fallback, old(manager), f))
    {
      var result := FallBackIf(fallback, f);
      var request := pending.value.request;
      pending, state := None, outcome;
      Append(Record(request, now, outcome, None, result));
    }

    ghost predicate Admissible(e: Event, plan: Plan, b: Belief, candidateOk: bool, now: real)
      reads this
    {
      Now().Admissible(Limited(), e, plan, b, candidateOk, now)
    }

    ghost predicate FallbackDue(e: Event, plan: Plan, b: Belief, candidateOk: bool, now: real)
      reads this
    {
      Now().FallbackDue(Limited(), e, plan, b, candidateOk, now)
    }

    /** `submit_event`: a request already in flight is never superseded. */
    method SubmitEvent(e: Event, plan: Plan, b: Belief, candidateOk: bool, now: real, buildFails: bool, f: Faults)
      requires Valid()
      modifies this
      ensures Valid() && accepted == old(accepted) && revisionCount == old(revisionCount)
      ensures Now() == old(Now()).After(Limited(), Submitted(e, plan, b, candidateOk, now, buildFails, f))
      ensures old(pending).Some? ==> Now() == old(Now())
      ensures old(pending).None? ==>
        (pending.Some? <==>
           (&& old(Admissible(e, plan, b, candidateOk, now)) && !buildFails
            && (old(manager).paused || !f.hover) && !f.submit))
      ensures old(pending).None? && pending.Some? ==>
        && pending.value.route == plan.route && Some(pending.value.step) == b.step
        && pending.value.submitted == now && pending.value.deadline == now + timeout
        && manager == old(manager).(paused := true) && history == old(history)
      ensures old(pending).None? && pending.None? ==>
        && state == REJECTED && manager.route == old(manager.route)
        && var hovering := old(Admissible(e, plan, b, candidateOk, now)) && !buildFails && !f.hover;
           var base := if hovering then old(manager).(paused := true) else old(manager);
           var left := Release(policy, old(FallbackDue(e, plan, b, candidateOk, now)) || hovering, base, f);
           && manager == left.manager && nextRequest == old(nextRequest) + 1
           && history == old(history) + [Record(old(nextRequest), now, REJECTED, None, left.result)]
           && ((old(FallbackDue(e, plan, b, candidateOk, now)) || hovering) && manager.paused ==>
                 manager.terminating || !manager.running || left.result == FallbackFailed)
    {
      if pending.Some? {
        return;
      }
      AfterValid(Now(), Limited(), Submitted(e, plan, b, candidateOk, now, buildFails, f));
      SubmitNew(e, plan, b, candidateOk, now, buildFails, f);
    }

    /** The checks of a submission, in order, while no request is in flight. */
    method SubmitNew(e: Event, plan: Plan, b: Belief, candidateOk: bool, now: real, buildFails: bool, f: Faults)
      requires Kept() && pending.None?
      modifies this
      ensures Kept() && Now() == old(Now()).After(Limited(), Submitted(e, plan, b, candidateOk, now, buildFails, f))
    {
      var fallback := manager.paused;
      if Submittable(uav, e, plan, b, manager) {
        if b.step.value in plan.landSteps || manager.landing {
          fallback := false;
        } else if !e.trigger.InspectUnusable?
                  && (e.trigger.Inspect? ==> b.step.value in plan.searchSteps && candidateOk) {
          if revisionCount >= maxRevisions || (lastRevision.Some? && now - lastRevision.value < cooldown) {
            fallback := true;
          } else if !buildFails {
            Launch(e, plan.route, b.step.value, now, f);
            return;
          }
        }
      }
      RejectSubmission(now, fallback, f);
    }

    /** Hover, then hand the request to the worker; a failure of either is a rejection. */
    method Launch(e: Event, route: Route, step: nat, now: real, f: Faults)
      requires Kept() && pending.None?
      modifies this
      ensures Kept() && Now() == old(Now()).Launched(Limited(), e.trigger, route, step, now, f)
    {
      var failed := true;
      if manager.paused || !f.hover {
        manager := manager.(paused := true);
        failed := f.submit;
      }
      pending := Some(Pending(nextRequest, route, step, e.trigger, now, now + timeout));
      nextRequest := nextRequest + 1;
      if failed {
        FinishRejected(REJECTED, now, manager.paused, f);
        return;
      }
      state := IN_FLIGHT;
    }

    /** What must hold for a tick to install the revision. */
    predicate Acceptable(s: Surroundings)
      reads `pending, `manager
      requires pending.Some?
    {
      var p := pending.value;
      && p.submitted <= s.now < p.deadline && StillCurrent(p, s.plan, s.belief, manager)
      && s.polled == Arrived(Validated)
      && p.submitted <= s.later < p.deadline && StillCurrent(p, s.plan, s.belief, s.during)
      && !p.trigger.InspectUnusable? && (p.trigger.Inspect? ==> s.candidateOk)
      && !s.faults.replace
    }

    /** The request goes on: in time, current, and no answer to judge. */
    predicate Undecided(s: Surroundings)
      reads `pending, `manager
      requires pending.Some?
    {
      && pending.value.submitted <= s.now < pending.value.deadline
      && StillCurrent(pending.value, s.plan, s.belief, manager)
      && (s.polled.Nothing? || s.polled.WorkerRaised?)
    }

    /** The deadline ends the request, before the poll or while its answer is validated. */
    predicate Overtaken(s: Surroundings)
      reads `pending, `manager
      requires pending.Some?
    {
      && pending.value.submitted <= s.now && StillCurrent(pending.value, s.plan, s.belief, manager)
      && (s.now >= pending.value.deadline || (s.polled == Arrived(Validated) && s.later >= pending.value.deadline))
    }

    /**
     `tick`.  The revision is installed exactly when everything is still as
     submitted, before and after validation, inside the deadline.  It stays in
     flight exactly while it is undecided and times out exactly when overtaken;
     every end is one record, and every other end leaves the manager's plan alone.
     */
    method Tick(s: Surroundings, newStep: nat)
      requires Valid()
      modifies this
      ensures Valid() && Now() == old(Now()).After(Limited(), Ticked(s, newStep))
      ensures old(pending).None? ==>
        pending.None? && state == old(state) && manager == old(manager) && history == old(history) && accepted == old(accepted)
      ensures old(pending).Some? ==>
        && (state == ACCEPTED <==> old(Acceptable(s)))
        && (state == IN_FLIGHT <==> old(Undecided(s)))
        && (state == TIMED_OUT <==> old(Overtaken(s)))
        && (state == ACCEPTED || state == IN_FLIGHT || state == TIMED_OUT || state == REJECTED)
      ensures old(pending).Some? && state == ACCEPTED ==>
        && manager.route == Some(Next(old(pending).value.route))
        && revisionCount == old(revisionCount) + 1 && lastRevision == Some(s.later)
        && accepted == old(accepted) + [Acceptance(old(pending).value.submitted, s.later, old(pending).value.deadline)]
      ensures old(pending).Some? && state != ACCEPTED ==>
        && accepted == old(accepted) && revisionCount == old(revisionCount)
        && (manager.route == old(manager.route) || manager.route == s.during.route)
      ensures old(pending).Some? && state == IN_FLIGHT ==>
        pending == old(pending) && history == old(history) && manager == old(manager)
      ensures old(pending).Some? ==>
        match EndingOf(old(pending).value, old(manager), s)
        case GoesOn => state == IN_FLIGHT
        case Refused(outcome, at, due, base) =>
          var left := Release(policy, due, base, s.faults);
          && state == outcome && pending.None? && manager == left.manager
          && history == old(history) + [Record(old(pending).value.request, at, outcome, None, left.result)]
          && (policy == CancelAndLand && due && base.running ==> manager.terminating || left.result == FallbackFailed)
        case Installs(at) =>
          && state == ACCEPTED && pending.None? && at == s.later
          && manager == s.during.(route := Some(Next(old(pending).value.route)), step := Some(newStep), paused := false)
          && history == old(history) + [Record(old(pending).value.request, at, ACCEPTED,
                                               Some(old(pending).value.route.version + 1), NoFallback)]
      ensures old(pending).Some? && state != IN_FLIGHT && state != ACCEPTED && manager.paused ==>
        manager.terminating || !manager.running || history[|old(history)|].fallback == FallbackFailed
    {
      if pending.None? {
        return;
      }
      AfterValid(Now(), Limited(), Ticked(s, newStep));
      EndingMeans(pending.value, manager, s);
      TickPending(s, newStep);
    }

    /** The checks of a tick, in order, while a request is in flight. */
    method TickPending(s: Surroundings, newStep: nat)
      requires Kept() && pending.Some?
      modifies this
      ensures Kept() && Now() == old(Now()).After(Limited(), Ticked(s, newStep))
    {
      var p := pending.value;
      if s.now < p.submitted {
        FinishRejected(REJECTED, s.now, true, s.faults);
        return;
      }
      if !StillCurrent(p, s.plan, s.belief, manager) {
        FinishRejected(REJECTED, s.now, manager.paused, s.faults);
        return;
      }
      if s.now >= p.deadline {
        FinishRejected(TIMED_OUT, s.now, true, s.faults);
        return;
      }
      if s.polled.WorkerRaised? || s.polled.Nothing? {
        return; // the worker's exception leaves the request in flight
      }
      Conclude(s, newStep);
    }

    /** The answer has arrived in time for a current request. */
    method Conclude(s: Surroundings, newStep: nat)
      requires Kept() && pending.Some? && s.polled.Arrived?
      requires pending.value.submitted <= s.now < pending.value.deadline
      requires StillCurrent(pending.value, s.plan, s.belief, manager)
      modifies this
      ensures Kept() && Now() == old(Now()).After(Limited(), Ticked(s, newStep))
    {
      var p := pending.value;
      manager := s.during;
      if s.polled.verdict != Validated {
        FinishRejected(REJECTED, s.now, true, s.faults);
        return;
      }
      if s.later < p.submitted {
        FinishRejected(REJECTED, s.later, true, s.faults);
        return;
      }
      if s.later >= p.deadline {
        FinishRejected(TIMED_OUT, s.later, manager.paused, s.faults);
        return;
      }
      if !StillCurrent(p, s.plan, s.belief, manager) || p.trigger.InspectUnusable?
         || (p.trigger.Inspect? && !s.candidateOk) || s.faults.replace {
        FinishRejected(REJECTED, s.later, true, s.faults);
        return;
      }
      Install(p, s.later, newStep);
    }

    method Install(p: Pending, now: real, newStep: nat)
      requires Kept()
      modifies this
      ensures Kept() && Now() == old(Now()).Installed(p, now, old(manager), newStep)
    {
      var next := Next(p.route);
      manager := manager.(route := Some(next), step := Some(newStep), paused := false);
      revisionCount, lastRevision := revisionCount + 1, Some(now);
      accepted := accepted + [Acceptance(p.submitted, now, p.deadline)];
      pending, state := None, ACCEPTED;
      Append(Record(p.request, now, ACCEPTED, Some(next.version), NoFallback));
    }

    /** `reset`: a request still in flight is forgotten, after its hover has been released. */
    method Reset(f: Faults)
      requires Valid()
      modifies this
      ensures Now() == old(Now()).After(Limited(), MissionReset(f))
      ensures Valid() && state == IDLE && pending.None? && history == [] && accepted == [] && revisionCount == 0
      ensures first == nextRequest == old(nextRequest) && lastRevision.None?
      ensures manager == Release(policy, old(pending).Some? && old(manager).paused, old(manager), f).manager
      ensures old(pending).Some? && manager.paused ==>
        manager.terminating || !manager.running || (f.cancel && (policy == CancelAndLand || f.resume))
    {
      if pending.Some? && manager.paused {
        var r := ApplyFallback(f);
      }
      pending, state, revisionCount, lastRevision, records := None, IDLE, 0, None, [];
      first, history, accepted := nextRequest, [], [];
    }
  }

  // ------------------------------------------------------------- whole runs

  /**
   Any run, over any number of missions.  Since the last reset: no more
   acceptances than the budget, a cooldown apart, each inside its deadline; and
   every request made has exactly one record once it is no longer in flight.
   */
  method RunMission(c: PlanRevisionCoordinator, steps: seq<Step>)
    requires c.Valid()
    modifies c
    ensures c.Valid() && (c.pending.Some? <==> c.state == IN_FLIGHT)
    ensures c.Now() == old(c.Now()).AfterAll(c.Limited(), steps, |steps|)
    ensures |c.accepted| <= c.maxRevisions
    ensures forall i, j | 0 <= i < j < |c.accepted| :: c.accepted[j].installed >= c.accepted[i].installed + c.cooldown
    ensures forall i | 0 <= i < |c.accepted| :: c.accepted[i].installed < c.accepted[i].deadline
    ensures forall r: nat | c.first <= r < c.nextRequest ::
      RecordsOf(c.history, r) == if c.pending.Some? && c.pending.value.request == r then 0 else 1
  {
    PlaySteps(c, steps);
    RunFacts(c.Now(), c.Limited());
  }

  method PlaySteps(c: PlanRevisionCoordinator, steps: seq<Step>)
    requires c.Valid()
    modifies c
    ensures c.Valid() && c.Now() == old(c.Now()).AfterAll(c.Limited(), steps, |steps|)
  {
    for i := 0 to |steps|
      invariant c.Valid() && c.Now() == old(c.Now()).AfterAll(c.Limited(), steps, i)
    {
      match steps[i]
      case Submitted(event, plan, belief, candidateOk, now, buildFails, faults) =>
        c.SubmitEvent(event, plan, belief, candidateOk, now, buildFails, faults);
      case Ticked(around, newStep) =>
        c.Tick(around, newStep);
      case ManagerMoved(manager) =>
        c.manager := manager;
      case MissionReset(faults) =>
        c.Reset(faults);
    }
  }

  lemma RunFacts(s: Snapshot, l: Limits)
    requires s.Valid(l) && l.cooldown >= 0.0
    ensures forall i, j | 0 <= i < j < |s.accepted| :: s.accepted[j].installed >= s.accepted[i].installed + l.cooldown
    ensures forall i | 0 <= i < |s.accepted| :: s.accepted[i].installed < s.accepted[i].deadline
    ensures forall r: nat | s.first <= r < s.nextRequest ::
      RecordsOf(s.history, r) == if s.pending.Some? && s.pending.value.request == r then 0 else 1
  {
    forall i, j | 0 <= i < j < |s.accepted| ensures s.accepted[j].installed >= s.accepted[i].installed + l.cooldown {
      SpacedMeans(s.accepted, l.cooldown, i, j);
    }
    forall i | 0 <= i < |s.accepted| ensures s.accepted[i].installed < s.accepted[i].deadline {
      SpacedEach(s.accepted, l.cooldown, i);
    }
    forall r: nat | s.first <= r < s.nextRequest
      ensures RecordsOf(s.history, r) == if s.pending.Some? && s.pending.value.request == r then 0 else 1
    {
      OneRecordEach(s.history, s.first, r);
    }
  }

  lemma {:induction false} SpacedEach(accepted: seq<Acceptance>, cooldown: real, i: nat)
    requires Spaced(accepted, cooldown) && i < |accepted|
    ensures accepted[i].submitted <= accepted[i].installed < accepted[i].deadline
  {
    if i < |accepted| - 1 {
      SpacedEach(accepted[..|accepted| - 1], cooldown, i);
    }
  }
}

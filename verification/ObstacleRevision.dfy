/**
 One protocol, two coordinators: the model-driven obstacle revision of
 uav_agent/agents/obstacle_revision_coordinator.py and the classical one of
 uav_agent/agents/classical_obstacle_revision_coordinator.py.  Planners,
 critics, workers, compilers and supervisors are inputs; calls on the skill
 manager are counted.
 */
module ObstacleRevision {
  import opened Common

  // ------------------------------------------------------------ the protocol

  datatype Phase = Idle | Deciding | Installed | Abandoned

  /** One round: proposals evaluated, and calls made on the skill manager. */
  datatype Round = Round(phase: Phase, proposals: nat, replacements: nat, cancels: nat)

  const NO_ROUND := Round(Idle, 0, 0, 0)

  /** What may happen to a round that allows `budget` proposals. */
  predicate Step(a: Round, b: Round, budget: nat) {
    match a.phase
    case Idle => b == Round(Deciding, 0, 0, 0)
    case Deciding =>
      || (b == a.(proposals := a.proposals + 1) && b.proposals < budget)
      || b == Round(Installed, a.proposals + 1, 1, 0)
      || b == Round(Abandoned, a.proposals + 1, 0, 1)
      || b == Round(Abandoned, a.proposals + 1, 1, 1)
    case Installed => false
    case Abandoned => false
  }

  predicate Run(rounds: seq<Round>, budget: nat) {
    |rounds| > 0 &&
    if |rounds| == 1 then rounds[0] == NO_ROUND
    else Run(rounds[..|rounds| - 1], budget) && Step(rounds[|rounds| - 2], rounds[|rounds| - 1], budget)
  }

  /** Within budget; installed with one replacement and no cancel, or abandoned with exactly one cancel. */
  predicate Lawful(r: Round, budget: nat) {
    match r.phase
    case Idle => r == NO_ROUND
    case Deciding => r.proposals < budget && r.replacements == 0 && r.cancels == 0
    case Installed => 1 <= r.proposals <= budget && r.replacements == 1 && r.cancels == 0
    case Abandoned => 1 <= r.proposals <= budget && r.replacements <= 1 && r.cancels == 1
  }

  lemma {:induction false} RunLawful(rounds: seq<Round>, budget: nat)
    requires Run(rounds, budget) && budget > 0
    ensures Lawful(rounds[|rounds| - 1], budget)
    ensures |rounds| <= budget + 2
    ensures rounds[|rounds| - 1].phase == Deciding ==> |rounds| == rounds[|rounds| - 1].proposals + 2
  {
    if |rounds| > 1 {
      RunLawful(rounds[..|rounds| - 1], budget);
    }
  }

  // ---------------------------------------------------------------- records

  datatype Outcome = RecordAccepted | Revise | ReviseStructure | ExhaustedStructure | ModelOrSchemaError
                   | NoFeasibleRoute | PlannerError | PublicationFailed

  datatype Record = Record(index: nat, round: nat, outcome: Outcome)

  /** Indices count up from zero and rounds never go back. */
  ghost predicate Contiguous(records: seq<Record>, next: nat, round: nat) {
    && next == |records|
    && (forall i | 0 <= i < |records| :: records[i].index == i && records[i].round <= round)
    && (forall i, j | 0 <= i < j < |records| :: records[i].round <= records[j].round)
  }

  lemma ContiguousAppended(records: seq<Record>, next: nat, round: nat, outcome: Outcome)
    requires Contiguous(records, next, round)
    ensures Contiguous(records + [Record(next, round, outcome)], next + 1, round)
  {
  }

  datatype State = IDLE | AWAITING_MODEL | ACCEPTED | EXHAUSTED | FAILED

  /** What polling the worker yields. */
  datatype Answer = NoAnswer | ParseFailed(repairable: bool) | Proposal(acceptedByCritic: bool, evaluateRaises: bool)

  /** How far an accepted proposal gets before something raises. */
  datatype Publication = RejectedBeforeReplacing | ReplacementRaises | RaisesAfterReplacing | Published

  function PhaseOf(state: State): Phase {
    match state
    case IDLE => Idle
    case AWAITING_MODEL => Deciding
    case ACCEPTED => Installed
    case EXHAUSTED => Abandoned
    case FAILED => Abandoned
  }

  /** What is recorded of an answer that can be judged; `more` is whether the budget allows another. */
  function OutcomeOf(polled: Answer, more: bool): Outcome
    requires !polled.NoAnswer?
  {
    match polled
    case ParseFailed(repairable) =>
      if !repairable then ModelOrSchemaError else if more then ReviseStructure else ExhaustedStructure
    case Proposal(acceptedByCritic, _) => if acceptedByCritic then RecordAccepted else Revise
  }

  /** The state after it: an answer that cannot be repaired fails, one to revise goes on while the budget lasts. */
  function StateAfter(polled: Answer, publication: Publication, more: bool): State
    requires !polled.NoAnswer?
  {
    if polled == ParseFailed(false) then FAILED
    else if polled.Proposal? && polled.acceptedByCritic then if publication.Published? then ACCEPTED else FAILED
    else if more then AWAITING_MODEL
    else EXHAUSTED
  }

  predicate Replaces(publication: Publication) { publication.Published? || publication.RaisesAfterReplacing? }

  datatype TickInput = TickInput(polled: Answer, publication: Publication, resubmitRaises: bool)

  datatype Play = Play(paused: bool, submitRaises: bool, ticks: seq<TickInput>)

  /** Everything an operation on the model-driven coordinator may change. */
  datatype Snapshot = Snapshot(state: State, hasSession: bool, outstanding: bool, proposalCount: nat, roundIndex: nat,
                               nextIndex: nat, records: seq<Record>, replacements: nat, cancels: nat)
  {
    function Begun(paused: bool, submitRaises: bool): Snapshot {
      if state != IDLE || !paused then this
      else if submitRaises then this.(hasSession := true, proposalCount := 0)
      else this.(state := AWAITING_MODEL, hasSession := true, outstanding := true, proposalCount := 0, replacements := 0,
                 cancels := 0)
    }

    /** An answer that can be evaluated: one record, and the state that the answer and the budget call for. */
    function Judged(t: TickInput, budget: nat): Snapshot
      requires !t.polled.NoAnswer?
    {
      var more := proposalCount + 1 < budget;
      var next := StateAfter(t.polled, t.publication, more);
      this.(state := next, proposalCount := proposalCount + 1, nextIndex := nextIndex + 1,
            outstanding := next == AWAITING_MODEL && !t.resubmitRaises,
            records := records + [Record(nextIndex, roundIndex, OutcomeOf(t.polled, more))],
            replacements := replacements
                            + if t.polled == Proposal(true, false) && Replaces(t.publication) then 1 else 0,
            cancels := cancels + if next == FAILED || next == EXHAUSTED then 1 else 0)
    }

    function Ticked(t: TickInput, budget: nat): Snapshot {
      if state != AWAITING_MODEL || !outstanding || t.polled.NoAnswer? then this
      else if t.polled.Proposal? && t.polled.evaluateRaises then this.(outstanding := false)
      else Judged(t, budget)
    }

    function TickedAll(ticks: seq<TickInput>, n: nat, budget: nat): Snapshot
      requires n <= |ticks|
    {
      if n == 0 then this else TickedAll(ticks, n - 1, budget).Ticked(ticks[n - 1], budget)
    }

    function Cleared(preserve: bool): Snapshot {
      if state == AWAITING_MODEL then this
      else if preserve then
        Snapshot(IDLE, false, false, 0, if hasSession then roundIndex + 1 else roundIndex, nextIndex, records, 0, 0)
      else Snapshot(IDLE, false, false, 0, 0, 0, [], 0, 0)
    }

    function Played(play: Play, budget: nat): Snapshot {
      var begun := Begun(play.paused, play.submitRaises);
      begun.TickedAll(play.ticks, |play.ticks|, budget)
    }

    /** The first n rounds, each closed by a preserving reset. */
    function PlayedAll(plays: seq<Play>, n: nat, budget: nat): Snapshot
      requires n <= |plays|
    {
      if n == 0 then this else PlayedAll(plays, n - 1, budget).Played(plays[n - 1], budget).Cleared(true)
    }
  }

  /** An exception out of a tick strands the round: no later tick can end it, and it cannot be reset. */
  lemma {:induction false} StrandedForGood(s: Snapshot, ticks: seq<TickInput>, n: nat, budget: nat, preserve: bool)
    requires s.state == AWAITING_MODEL && !s.outstanding && n <= |ticks|
    ensures s.TickedAll(ticks, n, budget) == s && s.TickedAll(ticks, n, budget).Cleared(preserve) == s
  {
    if n > 0 {
      StrandedForGood(s, ticks, n - 1, budget, preserve);
    }
  }

  lemma {:induction false} IdleTicks(s: Snapshot, ticks: seq<TickInput>, n: nat, budget: nat)
    requires s.state != AWAITING_MODEL && n <= |ticks|
    ensures s.TickedAll(ticks, n, budget) == s
  {
    if n > 0 {
      IdleTicks(s, ticks, n - 1, budget);
    }
  }

  class ModelCoordinator {
    const maxProposals: nat
    var state: State
    var hasSession: bool
    var outstanding: bool          // the worker still owes an answer to the current request
    var proposalCount: nat
    var roundIndex: nat
    var nextIndex: nat
    var records: seq<Record>
    ghost var replacements: nat    // calls in this round
    ghost var cancels: nat

    ghost function Now(): Snapshot
      reads this
    {
      Snapshot(state, hasSession, outstanding, proposalCount, roundIndex, nextIndex, records, replacements, cancels)
    }

    ghost function ThisRound(): Round
      reads this
    {
      Round(PhaseOf(state), proposalCount, replacements, cancels)
    }

    ghost predicate Valid()
      reads this
    {
      && maxProposals > 0 && Lawful(ThisRound(), maxProposals) && Contiguous(records, nextIndex, roundIndex)
      && (outstanding ==> state == AWAITING_MODEL) && (state != IDLE ==> hasSession)
    }

    constructor (maxProposals: nat)
      requires maxProposals > 0
      ensures Valid() && state == IDLE && records == [] && this.maxProposals == maxProposals
    {
      this.maxProposals := maxProposals;
      state, hasSession, outstanding, proposalCount, roundIndex, nextIndex := IDLE, false, false, 0, 0, 0;
      records, replacements, cancels := [], 0, 0;
    }

    /** `begin`; nothing starts unless idle and paused, and a failing submission leaves the coordinator idle. */
    method Begin(paused: bool, submitRaises: bool) returns (ok: bool)
      requires Valid()
      modifies `state, `hasSession, `outstanding, `proposalCount, `replacements, `cancels
      ensures Valid()
      ensures ok <==> old(state) == IDLE && paused && !submitRaises
      ensures Now() == old(Now()).Begun(paused, submitRaises)
      ensures ok ==> Step(old(ThisRound()), ThisRound(), maxProposals) && outstanding && hasSession
      ensures !ok ==> state == old(state) && ThisRound() == old(ThisRound()) && outstanding == old(outstanding)
      ensures hasSession <==> old(hasSession) || (old(state) == IDLE && paused)
    {
      if state != IDLE || !paused {
        return false;
      }
      hasSession, proposalCount := true, 0;
      if submitRaises {
        return false;
      }
      state, outstanding, replacements, cancels := AWAITING_MODEL, true, 0, 0;
      return true;
    }

    method Append(outcome: Outcome)
      requires Contiguous(records, nextIndex, roundIndex)
      modifies `records, `nextIndex, `proposalCount
      ensures Contiguous(records, nextIndex, roundIndex) && nextIndex == old(nextIndex) + 1
      ensures records == old(records) + [Record(old(nextIndex), roundIndex, outcome)]
      ensures proposalCount == old(proposalCount) + 1
    {
      ContiguousAppended(records, nextIndex, roundIndex, outcome);
      records := records + [Record(nextIndex, roundIndex, outcome)];
      nextIndex, proposalCount := nextIndex + 1, proposalCount + 1;
    }

    /**
     `tick`.  An answer is one protocol step with one record, except that an
     exception out of evaluation or resubmission leaves the round deciding with
     no request outstanding.
     */
    method Tick(polled: Answer, publication: Publication, resubmitRaises: bool) returns (ok: bool)
      requires Valid()
      modifies this
      ensures Valid() && roundIndex == old(roundIndex)
      ensures Now() == old(Now()).Ticked(TickInput(polled, publication, resubmitRaises), maxProposals)
      ensures old(records) <= records
      ensures !old(outstanding) || polled.NoAnswer? ==>
        && ok && ThisRound() == old(ThisRound()) && state == old(state) && records == old(records)
        && outstanding == old(outstanding)
      ensures old(outstanding) && !polled.NoAnswer? && !(polled.Proposal? && polled.evaluateRaises) ==>
        var more := old(proposalCount) + 1 < maxProposals;
        && records == old(records) + [Record(old(nextIndex), roundIndex, OutcomeOf(polled, more))]
        && state == StateAfter(polled, publication, more)
        && cancels == (if state == FAILED || state == EXHAUSTED then 1 else 0)
        && replacements == (if polled == Proposal(true, false) && Replaces(publication) then 1 else 0)
        && (outstanding <==> state == AWAITING_MODEL && !resubmitRaises)
      ensures polled == ParseFailed(false) && old(outstanding) ==>
        && state == FAILED && cancels == 1 && replacements == 0
        && records == old(records) + [Record(old(nextIndex), roundIndex, ModelOrSchemaError)]
      ensures old(outstanding) && !polled.NoAnswer? && ThisRound() != old(ThisRound()) ==>
        Step(old(ThisRound()), ThisRound(), maxProposals) && |records| == |old(records)| + 1
      ensures ThisRound() == old(ThisRound()) ==> records == old(records)
      ensures |records| > |old(records)| ==> records[|old(records)|].round == roundIndex
      ensures hasSession == old(hasSession)
      ensures |records| > |old(records)| ==>
        (records[|old(records)|].outcome == RecordAccepted <==> polled == Proposal(true, false))
      ensures old(outstanding) && !polled.NoAnswer? ==>
        (state == ACCEPTED <==> polled == Proposal(true, false) && publication.Published?)
      ensures old(outstanding) && !polled.NoAnswer? ==>
        (state == EXHAUSTED <==>
           old(proposalCount) + 1 >= maxProposals && (polled == ParseFailed(true) || polled == Proposal(false, false)))
      ensures !ok <==> state == AWAITING_MODEL && old(outstanding) && !outstanding
      ensures !ok <==>
        (&& old(outstanding)
         && (|| (polled.Proposal? && polled.evaluateRaises)
             || (resubmitRaises && old(proposalCount) + 1 < maxProposals
                 && (polled == ParseFailed(true) || polled == Proposal(false, false)))))
    {
      if state != AWAITING_MODEL || !outstanding || polled.NoAnswer? {
        return true;
      }
      outstanding := false;
      if polled.Proposal? && polled.evaluateRaises {
        return false;
      }
      ok := Judge(polled, publication, resubmitRaises);
    }

    /** An answer that could be evaluated: one protocol step, one record. */
    method Judge(polled: Answer, publication: Publication, resubmitRaises: bool) returns (ok: bool)
      requires Valid() && state == AWAITING_MODEL && !outstanding
      requires !polled.NoAnswer? && !(polled.Proposal? && polled.evaluateRaises)
      modifies `state, `cancels, `replacements, `records, `nextIndex, `proposalCount, `outstanding
      ensures Valid() && Step(old(ThisRound()), ThisRound(), maxProposals)
      ensures Now() == old(Now()).Judged(TickInput(polled, publication, resubmitRaises), maxProposals)
      ensures var more := old(proposalCount) + 1 < maxProposals;
        && records == old(records) + [Record(old(nextIndex), roundIndex, OutcomeOf(polled, more))]
        && state == StateAfter(polled, publication, more)
        && cancels == (if state == FAILED || state == EXHAUSTED then 1 else 0)
        && replacements == (if polled == Proposal(true, false) && Replaces(publication) then 1 else 0)
        && (outstanding <==> state == AWAITING_MODEL && !resubmitRaises)
      ensures ok <==> state != AWAITING_MODEL || outstanding
    {
      if polled.ParseFailed? {
        if !polled.repairable {
          Append(ModelOrSchemaError);
          Abandon(FAILED);
          return true;
        }
        ok := TryAgain(if proposalCount + 1 < maxProposals then ReviseStructure else ExhaustedStructure, resubmitRaises);
        return;
      }
      if polled.acceptedByCritic {
        Append(RecordAccepted);
        Publish(publication);
        ok := true;
      } else {
        ok := TryAgain(Revise, resubmitRaises);
      }
    }

    /** A proposal to revise: the next request, unless the budget is spent. */
    method TryAgain(outcome: Outcome, resubmitRaises: bool) returns (ok: bool)
      requires Valid() && state == AWAITING_MODEL && !outstanding && outcome != RecordAccepted
      modifies `state, `cancels, `records, `nextIndex, `proposalCount, `outstanding
      ensures Valid() && Step(old(ThisRound()), ThisRound(), maxProposals)
      ensures records == old(records) + [Record(old(nextIndex), roundIndex, outcome)] && nextIndex == old(nextIndex) + 1
      ensures state == if old(proposalCount) + 1 >= maxProposals then EXHAUSTED else AWAITING_MODEL
      ensures outstanding <==> state == AWAITING_MODEL && !resubmitRaises
      ensures ok <==> state == EXHAUSTED || outstanding
    {
      Append(outcome);
      if proposalCount >= maxProposals {
        Abandon(EXHAUSTED);
        return true;
      }
      outstanding := !resubmitRaises;
      return outstanding;
    }

    /** A terminal state other than ACCEPTED always comes with the trusted cancel. */
    method Abandon(terminal: State)
      requires terminal == EXHAUSTED || terminal == FAILED
      modifies `state, `cancels
      ensures state == terminal && cancels == old(cancels) + 1
    {
      state, cancels := terminal, cancels + 1;
    }

    /** `_publish_accepted`: however far it gets, the proposal just recorded ends the round by one protocol step. */
    method Publish(publication: Publication)
      requires state == AWAITING_MODEL && 1 <= proposalCount <= maxProposals && replacements == 0 && cancels == 0
      modifies `state, `replacements, `cancels
      ensures Step(Round(Deciding, proposalCount - 1, 0, 0), ThisRound(), maxProposals)
      ensures Lawful(ThisRound(), maxProposals) && (state == ACCEPTED || state == FAILED)
      ensures state == ACCEPTED <==> publication.Published?
      ensures replacements == (if Replaces(publication) then 1 else 0) && cancels == (if state == FAILED then 1 else 0)
    {
      if Replaces(publication) {
        replacements := replacements + 1;
      }
      if publication.Published? {
        state := ACCEPTED;
      } else {
        Abandon(FAILED);
      }
    }

    /** `reset`: refused while a request is active; with `preserve` the record indices run on. */
    method Reset(preserve: bool) returns (ok: bool)
      requires Valid()
      modifies this
      ensures Valid() && ok == (old(state) != AWAITING_MODEL)
      ensures Now() == old(Now()).Cleared(preserve)
      ensures ok ==> ThisRound() == NO_ROUND && !hasSession
      ensures ok && preserve ==> records == old(records) && nextIndex == old(nextIndex)
                                 && roundIndex == old(roundIndex) + if old(hasSession) then 1 else 0
      ensures ok && !preserve ==> records == [] && nextIndex == 0 && roundIndex == 0
      ensures !ok ==>
        && ThisRound() == old(ThisRound()) && records == old(records) && hasSession == old(hasSession)
        && outstanding == old(outstanding) && nextIndex == old(nextIndex) && roundIndex == old(roundIndex)
    {
      if state == AWAITING_MODEL {
        return false;
      }
      if preserve {
        roundIndex := if hasSession then roundIndex + 1 else roundIndex;
      } else {
        records, roundIndex, nextIndex := [], 0, 0;
      }
      state, hasSession, outstanding, proposalCount, replacements, cancels := IDLE, false, false, 0, 0, 0;
      return true;
    }
  }

  /** What the classical planner and its trusted suffix come to. */
  datatype Classical = PlannerRaises | NoRoute | SuffixUnsupported | Solution(publication: Publication)

  function ClassicalOutcome(planned: Classical): Outcome {
    match planned
    case PlannerRaises => PlannerError
    case NoRoute => NoFeasibleRoute
    case SuffixUnsupported => NoFeasibleRoute
    case Solution(publication) => if publication.Published? then RecordAccepted else PublicationFailed
  }

  class ClassicalCoordinator {
    var state: State
    var recordedThisRound: bool
    var roundIndex: nat
    var nextIndex: nat
    var records: seq<Record>
    ghost var replacements: nat
    ghost var cancels: nat

    ghost function ThisRound(): Round
      reads this
    {
      Round(PhaseOf(state), if recordedThisRound then 1 else 0, replacements, cancels)
    }

    ghost predicate Valid()
      reads this
    {
      && Lawful(ThisRound(), 1) && Contiguous(records, nextIndex, roundIndex)
      && state != AWAITING_MODEL
    }

    constructor ()
      ensures Valid() && state == IDLE && records == []
    {
      state, recordedThisRound, roundIndex, nextIndex, records := IDLE, false, 0, 0, [];
      replacements, cancels := 0, 0;
    }

    /** `begin` is the whole round: two protocol steps of a budget of one. */
    method Begin(paused: bool, planned: Classical) returns (ok: bool)
      requires Valid()
      modifies `state, `recordedThisRound, `nextIndex, `records, `replacements, `cancels
      ensures Valid()
      ensures ok <==> old(state) == IDLE && paused
      ensures !ok ==> ThisRound() == old(ThisRound()) && records == old(records) && state == old(state)
      ensures ok ==> Run([NO_ROUND, Round(Deciding, 0, 0, 0), ThisRound()], 1) && old(ThisRound()) == NO_ROUND
      ensures ok ==> records == old(records) + [Record(old(nextIndex), roundIndex, ClassicalOutcome(planned))]
      ensures ok ==> recordedThisRound && cancels == (if state == ACCEPTED then 0 else 1)
      ensures ok ==> replacements == (if planned.Solution? && Replaces(planned.publication) then 1 else 0)
      ensures ok ==> (state == ACCEPTED <==> planned == Solution(Published))
      ensures ok ==> (state == EXHAUSTED <==> planned.NoRoute? || planned.SuffixUnsupported?)
    {
      if state != IDLE || !paused {
        return false;
      }
      var outcome;
      match planned {
        case PlannerRaises =>
          outcome, state := PlannerError, FAILED;
        case NoRoute =>
          outcome, state := NoFeasibleRoute, EXHAUSTED;
        case SuffixUnsupported =>
          outcome, state := NoFeasibleRoute, EXHAUSTED;
        case Solution(publication) =>
          if Replaces(publication) {
            replacements := replacements + 1;
          }
          outcome := if publication.Published? then RecordAccepted else PublicationFailed;
          state := if publication.Published? then ACCEPTED else FAILED;
      }
      ContiguousAppended(records, nextIndex, roundIndex, outcome);
      records := records + [Record(nextIndex, roundIndex, outcome)];
      recordedThisRound, nextIndex := true, nextIndex + 1;
      if state != ACCEPTED {
        cancels := cancels + 1;
      }
      TwoSteps(ThisRound());
      return true;
    }

    method Reset(preserve: bool)
      requires Valid()
      modifies this
      ensures Valid() && ThisRound() == NO_ROUND
      ensures preserve ==> records == old(records) && nextIndex == old(nextIndex)
                           && roundIndex == old(roundIndex) + if old(recordedThisRound) then 1 else 0
      ensures !preserve ==> records == [] && nextIndex == 0 && roundIndex == 0
    {
      if preserve {
        roundIndex := if recordedThisRound then roundIndex + 1 else roundIndex;
      } else {
        records, roundIndex, nextIndex := [], 0, 0;
      }
      state, recordedThisRound, replacements, cancels := IDLE, false, 0, 0;
    }
  }

  lemma TwoSteps(end: Round)
    requires Step(Round(Deciding, 0, 0, 0), end, 1)
    ensures Run([NO_ROUND, Round(Deciding, 0, 0, 0), end], 1)
  {
    var rounds := [NO_ROUND, Round(Deciding, 0, 0, 0), end];
    assert rounds[..2] == [NO_ROUND, Round(Deciding, 0, 0, 0)];
    assert rounds[..2][..1] == [NO_ROUND];
  }

  // ------------------------------------------------------------- whole rounds

  /**
   A round from idle, however its ticks go: a run of the protocol, so within
   budget, and ended with one installation or one cancel.
   */
  method PlayRound(c: ModelCoordinator, paused: bool, submitRaises: bool, ticks: seq<TickInput>)
    returns (ghost rounds: seq<Round>)
    requires c.Valid() && c.state == IDLE
    modifies c
    ensures c.Now() == old(c.Now()).Played(Play(paused, submitRaises, ticks), c.maxProposals)
    ensures c.Valid() && Run(rounds, c.maxProposals) && rounds[|rounds| - 1] == c.ThisRound()
    ensures Lawful(c.ThisRound(), c.maxProposals) && |c.records| == |old(c.records)| + |rounds| - (if |rounds| > 1 then 2 else 1)
    ensures |rounds| <= c.maxProposals + 2
    ensures old(c.records) <= c.records && c.roundIndex == old(c.roundIndex)
    ensures forall i | |old(c.records)| <= i < |c.records| :: c.records[i].round == c.roundIndex
    ensures |c.records| > |old(c.records)| ==> c.hasSession
  {
    rounds := [NO_ROUND];
    var ok := c.Begin(paused, submitRaises);
    ghost var begun := c.Now();
    if !ok {
      IdleTicks(begun, ticks, |ticks|, c.maxProposals);
    } else {
      rounds := rounds + [c.ThisRound()];
      assert rounds[..1] == [NO_ROUND];
      rounds := PlayTicks(c, ticks, rounds);
    }
    RunLawful(rounds, c.maxProposals);
  }

  /** The ticks of a round that has begun go on with its run, with one record for each further step. */
  method PlayTicks(c: ModelCoordinator, ticks: seq<TickInput>, ghost begun: seq<Round>) returns (ghost rounds: seq<Round>)
    requires c.Valid() && c.hasSession
    requires |begun| > 1 && Run(begun, c.maxProposals) && begun[|begun| - 1] == c.ThisRound()
    modifies c
    ensures c.Now() == old(c.Now()).TickedAll(ticks, |ticks|, c.maxProposals)
    ensures c.Valid() && Run(rounds, c.maxProposals) && |rounds| >= |begun| && rounds[|rounds| - 1] == c.ThisRound()
    ensures |c.records| == |old(c.records)| + |rounds| - |begun|
    ensures old(c.records) <= c.records && c.roundIndex == old(c.roundIndex) && c.hasSession
    ensures forall j | |old(c.records)| <= j < |c.records| :: c.records[j].round == c.roundIndex
  {
    rounds := begun;
    for i := 0 to |ticks|
      invariant c.Now() == old(c.Now()).TickedAll(ticks, i, c.maxProposals)
      invariant c.Valid() && Run(rounds, c.maxProposals) && |rounds| >= |begun| && rounds[|rounds| - 1] == c.ThisRound()
      invariant |c.records| == |old(c.records)| + |rounds| - |begun|
      invariant old(c.records) <= c.records && c.roundIndex == old(c.roundIndex) && c.hasSession
      invariant forall j | |old(c.records)| <= j < |c.records| :: c.records[j].round == c.roundIndex
    {
      ghost var before := c.ThisRound();
      var fine := c.Tick(ticks[i].polled, ticks[i].publication, ticks[i].resubmitRaises);
      if c.ThisRound() != before {
        ghost var longer := rounds + [c.ThisRound()];
        assert longer[..|rounds|] == rounds;
        rounds := longer;
      }
    }
  }

  /** No record belongs to a round from this one on. */
  predicate AllBefore(records: seq<Record>, round: nat) {
    forall i | 0 <= i < |records| :: records[i].round < round
  }

  /** The records from `start` on share a round exactly when no end of a round lies between them. */
  ghost predicate Windowed(records: seq<Record>, start: nat, ends: seq<nat>) {
    && (forall k | 0 <= k < |ends| :: ends[k] <= |records|)
    && forall i, j | start <= i < j < |records| ::
         records[i].round < records[j].round <==> exists k :: 0 <= k < |ends| && i < ends[k] <= j
  }

  /** One more round's records, all of a later round, after the ends so far. */
  lemma WindowAdded(before: seq<Record>, records: seq<Record>, start: nat, ends: seq<nat>, round: nat)
    requires start <= |before| && before <= records && Windowed(before, start, ends)
    requires |before| == (if ends == [] then start else ends[|ends| - 1])
    requires forall i | start <= i < |before| :: before[i].round < round
    requires forall i | |before| <= i < |records| :: records[i].round == round
    ensures Windowed(records, start, ends + [|records|])
  {
    var more := ends + [|records|];
    forall i, j | start <= i < j < |records|
      ensures records[i].round < records[j].round <==> exists k :: 0 <= k < |more| && i < more[k] <= j
    {
      if j < |before| {
        if k :| 0 <= k < |ends| && i < ends[k] <= j {
          assert more[k] == ends[k];
        }
      } else if i < |before| {
        assert more[|ends| - 1] == |before|;
      }
    }
  }

  /**
   Rounds one after another, each closed by a preserving reset: no record is
   lost, indices run on without a gap, and two records share a round index
   exactly when they were made in the same round.  It goes on until a round does
   not end.
   */
  method PlayRounds(c: ModelCoordinator, plays: seq<Play>) returns (ends: seq<nat>)
    requires c.Valid() && c.state == IDLE && AllBefore(c.records, c.roundIndex)
    modifies c
    ensures c.Valid() && old(c.records) <= c.records && |ends| <= |plays|
    ensures forall i | 0 <= i < |c.records| :: c.records[i].index == i
    ensures Windowed(c.records, |old(c.records)|, ends)
    ensures c.Now() == old(c.Now()).PlayedAll(plays, |ends|, c.maxProposals)
    ensures |ends| < |plays| ==> c.state == AWAITING_MODEL
  {
    ends := [];
    ghost var start := |c.records|;
    for n := 0 to |plays|
      invariant c.Valid() && c.state == IDLE && old(c.records) <= c.records && |ends| == n
      invariant AllBefore(c.records, c.roundIndex) && c.Now() == old(c.Now()).PlayedAll(plays, n, c.maxProposals)
      invariant Windowed(c.records, start, ends) && |c.records| == (if ends == [] then start else ends[n - 1])
    {
      ghost var before, round := c.records, c.roundIndex;
      var ok := PlayAndReset(c, plays[n]);
      WindowAdded(before, c.records, start, ends, round);
      ends := ends + [|c.records|];
      if !ok {
        return;
      }
    }
  }

  /** One round and its preserving reset, which is refused if the round has not ended. */
  method PlayAndReset(c: ModelCoordinator, play: Play) returns (ok: bool)
    requires c.Valid() && c.state == IDLE && AllBefore(c.records, c.roundIndex)
    modifies c
    ensures c.Valid() && c.Now() == old(c.Now()).Played(play, c.maxProposals).Cleared(true)
    ensures old(c.records) <= c.records
    ensures forall i | |old(c.records)| <= i < |c.records| :: c.records[i].round == old(c.roundIndex)
    ensures if ok then c.state == IDLE && AllBefore(c.records, c.roundIndex) else c.state == AWAITING_MODEL
  {
    ghost var rounds := PlayRound(c, play.paused, play.submitRaises, play.ticks);
    ok := c.Reset(true);
  }

  /** How many of the first n rounds found the vehicle paused. */
  function Paused(rounds: seq<(bool, Classical)>, n: nat): nat
    requires n <= |rounds|
  {
    if n == 0 then 0 else Paused(rounds, n - 1) + if rounds[n - 1].0 then 1 else 0
  }

  /** The records of the first n rounds, counting on from a first index and round. */
  function ClassicalRecords(rounds: seq<(bool, Classical)>, n: nat, index: nat, round: nat): (records: seq<Record>)
    requires n <= |rounds|
    ensures |records| == Paused(rounds, n)
  {
    if n == 0 then []
    else
      var before := ClassicalRecords(rounds, n - 1, index, round);
      if !rounds[n - 1].0 then before
      else before + [Record(index + |before|, round + |before|, ClassicalOutcome(rounds[n - 1].1))]
  }

  lemma {:induction false} ClassicalRound(rounds: seq<(bool, Classical)>, n: nat, index: nat, round: nat, k: nat)
    requires n <= |rounds| && k < |ClassicalRecords(rounds, n, index, round)|
    ensures ClassicalRecords(rounds, n, index, round)[k].round == round + k
  {
    if k < |ClassicalRecords(rounds, n - 1, index, round)| {
      ClassicalRound(rounds, n - 1, index, round, k);
    }
  }

  /** One classical round and its preserving reset. */
  method PlayClassical(c: ClassicalCoordinator, paused: bool, planned: Classical)
    requires c.Valid() && c.state == IDLE
    modifies c
    ensures c.Valid() && c.state == IDLE
    ensures c.records == if paused then old(c.records) + [Record(old(c.nextIndex), old(c.roundIndex), ClassicalOutcome(planned))]
                         else old(c.records)
    ensures c.nextIndex == old(c.nextIndex) + (if paused then 1 else 0)
    ensures c.roundIndex == old(c.roundIndex) + (if paused then 1 else 0)
  {
    var ok := c.Begin(paused, planned);
    c.Reset(true);
  }

  /** The classical coordinator's rounds: one record each, indices without a gap, each in a later round. */
  method PlayClassicalRounds(c: ClassicalCoordinator, rounds: seq<(bool, Classical)>)
    requires c.Valid() && c.state == IDLE
    modifies c
    ensures c.Valid() && c.state == IDLE
    ensures c.records == old(c.records) + ClassicalRecords(rounds, |rounds|, old(c.nextIndex), old(c.roundIndex))
    ensures |c.records| == |old(c.records)| + Paused(rounds, |rounds|)
    ensures forall i | 0 <= i < |c.records| :: c.records[i].index == i
    ensures forall i, j | |old(c.records)| <= i < j < |c.records| :: c.records[i].round < c.records[j].round
  {
    ghost var index, round := c.nextIndex, c.roundIndex;
    for n := 0 to |rounds|
      invariant c.Valid() && c.state == IDLE
      invariant c.records == old(c.records) + ClassicalRecords(rounds, n, index, round)
      invariant c.nextIndex == index + Paused(rounds, n) && c.roundIndex == round + Paused(rounds, n)
    {
      PlayClassical(c, rounds[n].0, rounds[n].1);
    }
    forall i, j | |old(c.records)| <= i < j < |c.records| ensures c.records[i].round < c.records[j].round {
      ClassicalRound(rounds, |rounds|, index, round, i - |old(c.records)|);
      ClassicalRound(rounds, |rounds|, index, round, j - |old(c.records)|);
    }
  }

  // ----------------------------------------------------- the trusted suffix

  datatype Skill = GOTO | FOLLOW_ROUTE | HOVER | SEARCH | INSPECT | TRACK | LAND | OtherSkill

  const MAX_STEPS: nat := 16

  predicate Reusable(s: Skill) { s == GOTO || s == HOVER || s == SEARCH || s == TRACK || s == LAND }

  /** The steps the detour still has to fly: the current one unless the route replaces it, then the rest. */
  function Remaining(current: Skill, rest: seq<Skill>): seq<Skill> {
    if current == GOTO || current == FOLLOW_ROUTE then rest else [current] + rest
  }

  function Count(steps: seq<Skill>, s: Skill): nat {
    if steps == [] then 0 else Count(steps[..|steps| - 1], s) + if steps[|steps| - 1] == s then 1 else 0
  }

  lemma {:induction false} CountNone(steps: seq<Skill>, s: Skill)
    ensures Count(steps, s) == 0 <==> s !in steps
  {
    if steps != [] {
      var init, last := steps[..|steps| - 1], steps[|steps| - 1];
      CountNone(init, s);
      assert steps == init + [last];
    }
  }

  /** A count of one at the end is a first occurrence at the end. */
  lemma EndsWithOnly(steps: seq<Skill>, s: Skill)
    requires steps != [] && steps[|steps| - 1] == s
    ensures Count(steps, s) == 1 <==> s !in steps[..|steps| - 1]
  {
    CountNone(steps[..|steps| - 1], s);
  }

  /** `_replacement_steps`: None where the source raises. */
  method ReplacementSteps(current: Skill, rest: seq<Skill>) returns (r: Option<seq<Skill>>)
    ensures r.Some? ==> r.value == [FOLLOW_ROUTE] + Remaining(current, rest)
    ensures r.Some? <==> var left := Remaining(current, rest);
      && (forall i | 0 <= i < |left| :: Reusable(left[i]))
      && left != [] && left[|left| - 1] == LAND && LAND !in left[..|left| - 1] && |left| < MAX_STEPS
  {
    var left := Remaining(current, rest);
    var steps := [FOLLOW_ROUTE];
    for i := 0 to |left|
      invariant steps == [FOLLOW_ROUTE] + left[..i]
      invariant forall j | 0 <= j < i :: Reusable(left[j])
    {
      if !Reusable(left[i]) {
        return None;
      }
      steps := steps + [left[i]];
    }
    assert left[..|left|] == left;
    if steps[|steps| - 1] != LAND {
      return None;
    }
    EndsWithOnly(steps, LAND);
    assert steps[..|steps| - 1] == [FOLLOW_ROUTE] + left[..|left| - 1];
    if Count(steps, LAND) != 1 || |steps| > MAX_STEPS {
      return None;
    }
    return Some(steps);
  }
}

/**
 The program-patch coordinator of uav_agent/agents/program_patch_coordinator.py:
 one model request under hold, failing closed by cancelling the task.  The
 planner, the worker and the graph manager are inputs; cancel attempts are
 counted.
 */
module ProgramPatch {
  import opened Common

  datatype State = IDLE | AWAITING_MODEL | ACCEPTED | FAILED | TIMED_OUT

  datatype Record = Record(request: nat, outcome: State, completed: Option<real>)

  /** Why a begin may stop short of a request in flight. */
  datatype Launch = Refused | DispatchChanged | SubmitRaises | Launched

  datatype Answer = NoAnswer | Rejected | Installed

  /** How often a request has a terminal record. */
  function Mentions(history: seq<Record>, request: nat): nat {
    if history == [] then 0
    else Mentions(history[..|history| - 1], request) + if history[|history| - 1].request == request then 1 else 0
  }

  lemma MentionsAppended(history: seq<Record>, r: Record, request: nat)
    ensures Mentions(history + [r], request) == Mentions(history, request) + if r.request == request then 1 else 0
  {
    assert (history + [r])[..|history|] == history;
  }

  lemma NoteMentions(before: seq<Record>, r: Record)
    ensures forall id :: Mentions(before + [r], id) == Mentions(before, id) + if r.request == id then 1 else 0
  {
    forall id ensures Mentions(before + [r], id) == Mentions(before, id) + if r.request == id then 1 else 0 {
      MentionsAppended(before, r, id);
    }
  }

  datatype Step = Began(launch: Launch, timestamp: real) | Ticked(now: real, polled: Answer) | WasReset(taskRunning: bool)

  /** Everything a step may change; the record list is the tail of the history. */
  datatype Snapshot = Snapshot(state: State, request: Option<nat>, submitted: real, nextRequest: nat, history: seq<Record>,
                               dropped: set<nat>, cancelAttempts: nat, installations: nat)
  {
    function Ended(outcome: State, completed: Option<real>): Snapshot {
      var paid := if request.Some? then history + [Record(request.value, outcome, completed)] else history;
      if outcome == ACCEPTED then this.(state := outcome, history := paid, installations := installations + 1)
      else this.(state := outcome, history := paid, cancelAttempts := cancelAttempts + 1)
    }

    function After(step: Step, timeout: real): Snapshot {
      match step
      case Began(launch, timestamp) =>
        if state != IDLE || launch.Refused? then this
        else if launch.DispatchChanged? then Ended(FAILED, None)
        else
          var made := this.(request := Some(nextRequest), submitted := timestamp, nextRequest := nextRequest + 1);
          if launch.SubmitRaises? then made.Ended(FAILED, Some(timestamp)) else made.(state := AWAITING_MODEL)
      case Ticked(now, polled) =>
        if state != AWAITING_MODEL then this
        else if polled.Installed? then Ended(ACCEPTED, Some(now))
        else if polled.Rejected? then Ended(FAILED, Some(now))
        else if now >= submitted + timeout then Ended(TIMED_OUT, Some(now))
        else this
      case WasReset(taskRunning) =>
        if state == AWAITING_MODEL && taskRunning then this
        else
          Snapshot(IDLE, None, 0.0, nextRequest, history,
                   if state == AWAITING_MODEL && request.Some? then dropped + {request.value} else dropped, 0, 0)
    }

    /** After the first n steps. */
    function AfterAll(steps: seq<Step>, n: nat, timeout: real): Snapshot
      requires n <= |steps|
    {
      if n == 0 then this else AfterAll(steps, n - 1, timeout).After(steps[n - 1], timeout)
    }
  }

  class ProgramPatchCoordinator {
    const timeout: real
    const maxRecords: nat
    var state: State
    var request: Option<nat>
    var submitted: real
    var nextRequest: nat
    var records: seq<Record>
    ghost var history: seq<Record>         // every record ever appended
    ghost var dropped: set<nat>            // requests reset while awaited
    ghost var cancelAttempts: nat          // since the last reset
    ghost var installations: nat           // since the last reset

    /** Accepted means installed and never cancelled; any other end means exactly one cancel attempt. */
    ghost predicate Decided()
      reads this
    {
      match state
      case IDLE => request.None? && cancelAttempts == 0 && installations == 0
      case AWAITING_MODEL => request.Some? && cancelAttempts == 0 && installations == 0
      case ACCEPTED => request.Some? && cancelAttempts == 0 && installations == 1
      case FAILED => cancelAttempts == 1 && installations == 0
      case TIMED_OUT => request.Some? && cancelAttempts == 1 && installations == 0
    }

    ghost function Now(): Snapshot
      reads this
    {
      Snapshot(state, request, submitted, nextRequest, history, dropped, cancelAttempts, installations)
    }

    /** Every request ever made has exactly one record, but for the one still owed and those dropped by a reset. */
    ghost predicate Ledger(owed: Option<nat>)
      reads this
    {
      && records == Latest(history, maxRecords)
      && (request.Some? ==> request.value < nextRequest && request.value !in dropped)
      && (forall id | id in dropped :: id < nextRequest)
      && forall id: nat :: Mentions(history, id) == if id < nextRequest && id !in dropped && owed != Some(id) then 1 else 0
    }

    ghost predicate Recorded()
      reads this
    {
      Ledger(if state == AWAITING_MODEL then request else None)
    }

    ghost predicate Valid()
      reads this
    {
      timeout > 0.0 && maxRecords > 0 && Decided() && Recorded()
    }

    constructor (timeout: real, maxRecords: nat)
      requires timeout > 0.0 && maxRecords > 0
      ensures Valid() && state == IDLE && history == []
      ensures this.timeout == timeout && this.maxRecords == maxRecords
    {
      this.timeout, this.maxRecords := timeout, maxRecords;
      state, request, submitted, nextRequest, records := IDLE, None, 0.0, 0, [];
      history, dropped, cancelAttempts, installations := [], {}, 0, 0;
    }

    /** `_append_record`, trimming the oldest over the bound: the record the request is owed. */
    method Append(outcome: State, completed: Option<real>)
      requires request.Some? && maxRecords > 0 && Ledger(request)
      modifies `records, `history
      ensures Ledger(None) && |records| <= maxRecords
      ensures history == old(history) + [Record(request.value, outcome, completed)]
    {
      var record := Record(request.value, outcome, completed);
      LatestAppended(history, record, maxRecords);
      NoteMentions(history, record);
      records, history := Latest(records + [record], maxRecords), history + [record];
    }

    /**
     `_fail_closed`: the cancel is attempted whether or not there is a request
     to record, and an undecided coordinator is decided afterwards.
     */
    method FailClosed(terminal: State, completed: Option<real>)
      requires timeout > 0.0 && maxRecords > 0 && Ledger(request) && cancelAttempts == 0 && installations == 0
      requires terminal == FAILED || (terminal == TIMED_OUT && request.Some?)
      modifies `state, `cancelAttempts, `records, `history
      ensures Valid() && state == terminal
      ensures history == if request.Some? then old(history) + [Record(request.value, terminal, completed)] else old(history)
    {
      state, cancelAttempts := terminal, cancelAttempts + 1;
      if request.Some? {
        Append(terminal, completed);
      }
    }

    /** `begin`: refused with nothing changed, or in flight, or failed closed. */
    method Begin(launch: Launch, timestamp: real) returns (ok: bool)
      requires Valid()
      modifies this
      ensures Valid()
      ensures ok <==> old(state) == IDLE && !launch.Refused?
      ensures Now() == old(Now()).After(Began(launch, timestamp), timeout)
      ensures ok ==> nextRequest == old(nextRequest) + if launch.DispatchChanged? then 0 else 1
      ensures ok ==> cancelAttempts == (if launch.Launched? then 0 else 1) && installations == 0
      ensures ok ==> (state == AWAITING_MODEL <==> launch.Launched?) && (state == FAILED <==> !launch.Launched?)
      ensures ok && launch.Launched? ==> request == Some(old(nextRequest)) && submitted == timestamp && history == old(history)
      ensures ok && launch.DispatchChanged? ==> history == old(history) && request.None?
      ensures ok && launch.SubmitRaises? ==>
        history == old(history) + [Record(old(nextRequest), FAILED, Some(timestamp))]
    {
      if state != IDLE || launch.Refused? {
        return false;
      }
      if launch.DispatchChanged? {
        FailClosed(FAILED, None);
        return true;
      }
      request, submitted, nextRequest := Some(nextRequest), timestamp, nextRequest + 1;
      if launch.SubmitRaises? {
        FailClosed(FAILED, Some(timestamp));
        return true;
      }
      state := AWAITING_MODEL;
      return true;
    }

    /**
     `tick`.  The deadline counts only while nothing has arrived: an answer is
     judged on its merits however late it is.
     */
    method Tick(now: real, polled: Answer)
      requires Valid()
      modifies this
      ensures Valid() && Now() == old(Now()).After(Ticked(now, polled), timeout)
      ensures request == old(request) && submitted == old(submitted) && nextRequest == old(nextRequest)
      ensures old(state) != AWAITING_MODEL || (polled.NoAnswer? && now < old(submitted) + timeout) ==> Now() == old(Now())
      ensures old(state) == AWAITING_MODEL ==>
        && (state == ACCEPTED <==> polled.Installed?)
        && (state == FAILED <==> polled.Rejected?)
        && (state == TIMED_OUT <==> polled.NoAnswer? && now >= old(submitted) + timeout)
        && cancelAttempts == (if state == FAILED || state == TIMED_OUT then 1 else 0)
        && installations == (if state == ACCEPTED then 1 else 0)
      ensures old(state) == AWAITING_MODEL ==>
        history == if state == AWAITING_MODEL then old(history)
                   else old(history) + [Record(request.value, state, Some(now))]
    {
      if state != AWAITING_MODEL {
        return;
      }
      if polled.NoAnswer? {
        if now >= submitted + timeout {
          FailClosed(TIMED_OUT, Some(now));
        }
        return;
      }
      if polled.Rejected? {
        FailClosed(FAILED, Some(now));
        return;
      }
      state, installations := ACCEPTED, installations + 1;
      Append(ACCEPTED, Some(now));
    }

    /** `reset`: refused only while a request is in flight and the task still runs. */
    method Reset(taskRunning: bool) returns (ok: bool)
      requires Valid()
      modifies this
      ensures Valid() && ok == !(old(state) == AWAITING_MODEL && taskRunning)
      ensures Now() == old(Now()).After(WasReset(taskRunning), timeout)
      ensures ok ==> state == IDLE && request.None? && cancelAttempts == 0 && installations == 0
      ensures records == old(records) && history == old(history) && nextRequest == old(nextRequest)
      ensures dropped == if ok && old(state) == AWAITING_MODEL then old(dropped) + {old(request).value} else old(dropped)
    {
      if state == AWAITING_MODEL && taskRunning {
        return false;
      }
      if state == AWAITING_MODEL {
        dropped := dropped + {request.value};
      }
      state, request, submitted := IDLE, None, 0.0;
      cancelAttempts, installations := 0, 0;
      return true;
    }
  }

  /**
   Over any run: no end but ACCEPTED without a cancel attempt, and every request
   ever made has exactly one record, unless it is still awaited or was reset
   while awaited; the list shows the last of them.
   */
  method EveryRun(c: ProgramPatchCoordinator, steps: seq<Step>)
    requires c.Valid()
    modifies c
    ensures c.Valid() && c.records == Latest(c.history, c.maxRecords)
    ensures c.Now() == old(c.Now()).AfterAll(steps, |steps|, c.timeout)
    ensures forall id: nat | id >= c.nextRequest || id in c.dropped :: Mentions(c.history, id) == 0
    ensures forall id: nat | id < c.nextRequest && id !in c.dropped ::
      Mentions(c.history, id) == if c.state == AWAITING_MODEL && c.request == Some(id) then 0 else 1
    ensures c.state == FAILED || c.state == TIMED_OUT ==> c.cancelAttempts == 1 && c.installations == 0
    ensures c.state == ACCEPTED ==> c.cancelAttempts == 0 && c.installations == 1
  {
    for i := 0 to |steps|
      invariant c.Valid() && c.Now() == old(c.Now()).AfterAll(steps, i, c.timeout)
    {
      match steps[i]
      case Began(launch, timestamp) =>
        var ok := c.Begin(launch, timestamp);
      case Ticked(now, polled) =>
        c.Tick(now, polled);
      case WasReset(taskRunning) =>
        var ok := c.Reset(taskRunning);
    }
  }
}
